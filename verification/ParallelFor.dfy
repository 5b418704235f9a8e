/** The parallel loop that captures the first exception, as a protocol of atomic steps.

    Every index has one task.  A task looks at the cancellation token, then at the failure flag,
    then runs the body; when the body throws, the task that wins the exchange on the flag writes
    the exception slot.  The flag is read relaxed, so a task may still see it unset. */
module ParallelFor {
  import opened Options

  type Exception = nat

  datatype Phase =
    | Waiting
    | Admitted
    | Running
    | Caught(thrown: Exception)
    | Winning(thrown: Exception)
    | Finished

  /** The shared state, and what the bodies did: how often each started and what it threw. */
  datatype State = State(
    phases: seq<Phase>,
    cancelled: bool,
    failed: bool,
    slot: Option<Exception>,
    started: seq<nat>,
    thrown: seq<Option<Exception>>,
    winner: Option<nat>,
    writes: nat)

  datatype Step =
    | Cancel
    | CheckCancelled(i: nat)
    | CheckFailed(i: nat, stale: bool)
    | Return(i: nat)
    | Throw(i: nat, e: Exception)
    | Exchange(i: nat)
    | Record(i: nat)

  function Start(count: nat): State {
    State(seq(count, _ => Waiting), false, false, None, seq(count, _ => 0), seq(count, _ => None), None, 0)
  }

  predicate Shaped(s: State) {
    |s.started| == |s.phases| && |s.thrown| == |s.phases|
  }

  predicate Enabled(s: State, step: Step)
    requires Shaped(s)
  {
    match step
    case Cancel => true
    case CheckCancelled(i) => i < |s.phases| && s.phases[i] == Waiting
    case CheckFailed(i, stale) => i < |s.phases| && s.phases[i] == Admitted && (stale ==> s.failed)
    case Return(i) => i < |s.phases| && s.phases[i] == Running
    case Throw(i, _) => i < |s.phases| && s.phases[i] == Running
    case Exchange(i) => i < |s.phases| && s.phases[i].Caught?
    case Record(i) => i < |s.phases| && s.phases[i].Winning?
  }

  function Moved(s: State, i: nat, p: Phase): State
    requires i < |s.phases|
  {
    s.(phases := s.phases[i := p])
  }

  function Next(s: State, step: Step): (t: State)
    requires Shaped(s) && Enabled(s, step)
    ensures Shaped(t) && |t.phases| == |s.phases|
  {
    match step
    case Cancel => s.(cancelled := true)
    case CheckCancelled(i) => Moved(s, i, if s.cancelled then Finished else Admitted)
    case CheckFailed(i, stale) =>
      if s.failed && !stale then Moved(s, i, Finished)
      else Moved(s, i, Running).(started := s.started[i := s.started[i] + 1])
    case Return(i) => Moved(s, i, Finished)
    case Throw(i, e) => Moved(s, i, Caught(e)).(thrown := s.thrown[i := Some(e)])
    case Exchange(i) =>
      if s.failed then Moved(s, i, Finished)
      else Moved(s, i, Winning(s.phases[i].thrown)).(failed := true, winner := Some(i))
    case Record(i) => Moved(s, i, Finished).(slot := Some(s.phases[i].thrown), writes := s.writes + 1)
  }

  /** The state after a run, or nothing when some step was not enabled. */
  function Run(count: nat, steps: seq<Step>): (r: Option<State>)
    ensures r.Some? ==> Shaped(r.value) && |r.value.phases| == count
  {
    if steps == [] then Some(Start(count))
    else
      var before := Run(count, steps[..|steps| - 1]);
      var step := steps[|steps| - 1];
      if before.Some? && Enabled(before.value, step) then Some(Next(before.value, step)) else None
  }

  // ---- What every reachable state keeps ----

  /** One task: it has started its body exactly when it is past the checks, and what it threw is still on its way. */
  ghost predicate TaskInvariant(s: State, i: nat)
    requires Shaped(s) && i < |s.phases|
  {
    && s.started[i] <= 1
    && (s.phases[i].Waiting? || s.phases[i].Admitted? ==> s.started[i] == 0 && s.thrown[i].None?)
    && (s.phases[i].Running? ==> s.started[i] == 1 && s.thrown[i].None?)
    && (s.phases[i].Caught? || s.phases[i].Winning? ==> s.started[i] == 1 && s.thrown[i] == Some(s.phases[i].thrown))
    && (s.phases[i].Winning? ==> s.winner == Some(i))
    && (s.phases[i].Finished? && s.started[i] == 0 ==> (s.cancelled || s.failed) && s.thrown[i].None?)
    && (s.phases[i].Finished? && s.thrown[i].Some? ==> s.failed)
  }

  /** The slot: written at most once, by the winner, with what the winner threw. */
  ghost predicate SlotInvariant(s: State)
    requires Shaped(s)
  {
    && (s.failed <==> s.winner.Some?)
    && (s.winner.None? ==> s.slot.None? && s.writes == 0)
    && (s.winner.Some? ==>
         && s.winner.value < |s.phases|
         && s.thrown[s.winner.value].Some?
         && (s.phases[s.winner.value].Winning? || s.phases[s.winner.value].Finished?)
         && (s.phases[s.winner.value].Winning? ==> s.slot.None? && s.writes == 0)
         && (s.phases[s.winner.value].Finished? ==> s.slot == s.thrown[s.winner.value] && s.writes == 1))
  }

  ghost predicate Invariant(s: State) {
    Shaped(s) && SlotInvariant(s) && forall i: nat :: i < |s.phases| ==> TaskInvariant(s, i)
  }

  /** A step leaves the other tasks alone, and a flag or winner once set stays. */
  lemma OthersStay(s: State, step: Step, j: nat)
    requires Shaped(s) && Enabled(s, step) && j < |s.phases| && (step.Cancel? || step.i != j)
    ensures var t := Next(s, step);
            && t.phases[j] == s.phases[j] && t.started[j] == s.started[j] && t.thrown[j] == s.thrown[j]
            && (s.cancelled ==> t.cancelled) && (s.failed ==> t.failed && t.winner == s.winner)
  {
  }

  lemma StepKeepsOther(s: State, step: Step, j: nat)
    requires Invariant(s) && Enabled(s, step) && j < |s.phases| && (step.Cancel? || step.i != j)
    ensures TaskInvariant(Next(s, step), j)
  {
    assert TaskInvariant(s, j);
    assert s.phases[j].Winning? ==> s.failed;
    OthersStay(s, step, j);
    hide Invariant, SlotInvariant, Next, Enabled;
  }

  lemma StepKeepsOwn(s: State, step: Step)
    requires Invariant(s) && Enabled(s, step) && !step.Cancel?
    ensures TaskInvariant(Next(s, step), step.i)
  {
    assert TaskInvariant(s, step.i);
    hide Invariant, SlotInvariant;
    match step
    case CheckCancelled(i) =>
    case CheckFailed(i, stale) =>
    case Return(i) =>
    case Throw(i, e) =>
    case Exchange(i) =>
    case Record(i) =>
  }

  lemma StepKeepsSlot(s: State, step: Step)
    requires Invariant(s) && Enabled(s, step)
    ensures SlotInvariant(Next(s, step))
  {
    if s.winner.Some? {
      assert TaskInvariant(s, s.winner.value);
    }
    if !step.Cancel? {
      assert TaskInvariant(s, step.i);
    }
    hide Invariant, TaskInvariant;
  }

  lemma StepKeepsInvariant(s: State, step: Step)
    requires Invariant(s) && Enabled(s, step)
    ensures Invariant(Next(s, step))
  {
    StepKeepsSlot(s, step);
    forall j: nat | j < |s.phases|
      ensures TaskInvariant(Next(s, step), j)
    {
      if step.Cancel? || step.i != j {
        StepKeepsOther(s, step, j);
      } else {
        StepKeepsOwn(s, step);
      }
    }
  }

  lemma {:induction false} RunKeepsInvariant(count: nat, steps: seq<Step>)
    requires Run(count, steps).Some?
    ensures Invariant(Run(count, steps).value)
    decreases |steps|
  {
    if steps != [] {
      RunKeepsInvariant(count, steps[..|steps| - 1]);
      StepKeepsInvariant(Run(count, steps[..|steps| - 1]).value, steps[|steps| - 1]);
    }
  }

  /** Every task has ended: the executor has joined. */
  predicate Joined(s: State) {
    forall i: nat :: i < |s.phases| ==> s.phases[i].Finished?
  }

  datatype Outcome = Completed | Rethrown(e: Exception) | Interrupted

  /** What the caller sees after the join. */
  function CallerSees(s: State): Outcome {
    if s.slot.Some? then Rethrown(s.slot.value) else if s.cancelled then Interrupted else Completed
  }

  /** Under any interleaving, no body runs twice and the slot is written at most once. */
  lemma BodiesRunAtMostOnce(count: nat, steps: seq<Step>, i: nat)
    requires Run(count, steps).Some? && i < count
    ensures Run(count, steps).value.started[i] <= 1 && Run(count, steps).value.writes <= 1
  {
    RunKeepsInvariant(count, steps);
    assert TaskInvariant(Run(count, steps).value, i);
  }

  /** After the join an exception is rethrown exactly when some body threw, and it is the one of the
      task that won the exchange; without throw or cancellation every body has run. */
  lemma JoinTellsTheTruth(count: nat, steps: seq<Step>)
    requires Run(count, steps).Some? && Joined(Run(count, steps).value)
    ensures var s := Run(count, steps).value;
            && (CallerSees(s).Rethrown? <==> exists i: nat :: i < count && s.thrown[i].Some?)
            && (CallerSees(s).Rethrown? ==> s.winner.Some? && s.winner.value < count && s.thrown[s.winner.value] == Some(CallerSees(s).e))
            && (CallerSees(s).Completed? ==> forall i: nat :: i < count ==> s.started[i] == 1 && s.thrown[i].None?)
  {
    RunKeepsInvariant(count, steps);
    var s := Run(count, steps).value;
    forall i: nat | i < count
      ensures s.thrown[i].Some? ==> s.failed
      ensures s.started[i] == 1 || s.cancelled || s.failed
    {
      assert TaskInvariant(s, i);
    }
  }
}
