/** What holds after every run of a recovery attempt. */
module RecoveryTheorems {
  import opened Options
  import opened StrictContext
  import opened RecoveryState
  import opened RecoveryPhase
  import opened RecoveryScript
  import opened RecoveryRewind
  import opened RecoveryFastPath
  import opened RecoveryRun

  /** `m` is where some run of an attempt ends. */
  ghost predicate Reached(c: Config, s: State, actions: seq<Action>, m: Machine) {
    c.Valid() && Start(s) && LegalRun(false, c, Begin(s), actions) && m == Run(false, c, Begin(s), actions)
  }

  lemma ReachedIsGood(c: Config, s: State, actions: seq<Action>, m: Machine)
    requires Reached(c, s, actions, m)
    ensures Inv(c, m)
  {
    hide Inv, Run, Legal, Act;
    StartIsGood(c, s);
    RunKeepsInv(c, Begin(s), actions);
  }

  /** The window opens once and completes once at most, and is never stable without having reached its target. */
  lemma WindowOpensOnce(c: Config, s: State, actions: seq<Action>, m: Machine)
    requires Reached(c, s, actions, m)
    ensures m.now.phase.replay.completedWindows <= m.past.history.opens <= 1
    ensures m.now.phase.replay.completed <==> m.now.phase.replay.completedWindows == 1
    ensures m.now.phase.replay.completed ==> !m.now.phase.replay.inPhase
    ensures m.now.phase.replay.stable ==> m.now.phase.replay.reachedTarget && m.now.phase.replay.completed && !m.now.phase.replay.awaiting
  {
    hide Reached, LegalRun, Run;
    ReachedIsGood(c, s, actions, m);
  }

  /** Away from the end of the text the window closes only after enough visible leaves followed the last edit
      made in it (or, at the very limit of its counters, after as many leaves as they can tell). */
  lemma WindowClosesLate(c: Config, s: State, actions: seq<Action>, m: Machine)
    requires Reached(c, s, actions, m)
    ensures var h := m.past.history;
            m.now.phase.replay.completed && !h.atEnd && h.lastEdit.Some? ==>
              && m.now.phase.window.Some?
              && (h.leaves >= Following(c, m.now.phase.window.value, h.lastEdit.value) || h.forwardAtEdit + h.leaves >= MAX)
  {
    hide Reached, LegalRun, Run;
    ReachedIsGood(c, s, actions, m);
  }

  /** On a branch that never went over the budget knowingly, the totals stay within twice the limits and the
      charges of an open window within the limits, whatever wraps around on the way. */
  lemma BudgetStaysWithinTwice(c: Config, s: State, actions: seq<Action>, m: Machine)
    requires Reached(c, s, actions, m)
    requires !m.now.budget.overflow && !m.past.history.overrun
    ensures m.now.budget.cost <= 2 * c.maxCost && m.now.budget.count <= 2 * c.maxEdits
    ensures WindowOpen(m.now.phase) ==>
              && Sub32(m.now.budget.cost, m.now.phase.replay.costBase) <= c.maxCost
              && Sub32(m.now.budget.count, m.now.phase.replay.countBase) <= c.maxEdits
    ensures !WindowOpen(m.now.phase) && !m.now.phase.replay.completed ==> m.now.budget.cost <= c.maxCost && m.now.budget.count <= c.maxEdits
  {
    hide Reached, LegalRun, Run;
    ReachedIsGood(c, s, actions, m);
  }

  /** While committed edits are pending no window is open and every entry replays a committed edit; all of
      them are replayed in order, and each insertion and replacement used up is in the script. */
  lemma CommittedEditsComeFirst(c: Config, s: State, actions: seq<Action>, m: Machine)
    requires Reached(c, s, actions, m)
    ensures Faithful(c, m.now.script, m.past.origins)
    ensures PendingCommitted(c, m.now.script.replayed) ==>
              && !WindowOpen(m.now.phase)
              && forall i: nat :: i < |m.now.script.edits| ==>
                   && m.past.origins[i].Some? && m.past.origins[i].value <= m.now.script.replayed
                   && StandsFor(c, m.now.script.edits[i], c.committed[m.past.origins[i].value])
  {
    hide Reached, LegalRun, Run, StandsFor;
    ReachedIsGood(c, s, actions, m);
    forall i: nat | i < |m.now.script.edits| && PendingCommitted(c, m.now.script.replayed)
      ensures m.past.origins[i].Some? && m.past.origins[i].value <= m.now.script.replayed
              && StandsFor(c, m.now.script.edits[i], c.committed[m.past.origins[i].value])
    {
      assert EntryFaithful(c, m.now.script.edits[i], m.past.origins[i], m.now.script.replayed);
    }
  }

  /** A live mark can always be returned to, and returning restores the marked state; the script's entries too,
      exactly when no delete was joined to one of them since. */
  lemma RewindUndoesTheRun(c: Config, s: State, actions: seq<Action>, m: Machine, k: nat)
    requires Reached(c, s, actions, m) && k < |m.marks|
    ensures Legal(c, m, RewindTo(k))
    ensures var saved := m.marks[k].saved;
            var n := Act(false, c, m, RewindTo(k));
            && |saved.state.script.edits| <= |m.now.script.edits|
            && n.now == Restored(saved.state, m.now)
            && (n.now.script == saved.state.script <==> Untouched(saved, m.joins))
  {
    hide Reached, LegalRun, Run, Good, PhaseOk, CanRewind;
    ReachedIsGood(c, s, actions, m);
    RewindKeepsInv(c, m, k);
    assert Since(m.marks[k].saved, m.now, m.joins);
    RewindRestores(m.marks[k].saved, m.now, m.joins);
  }

  /** If no delete can be joined across a mark when it is taken, every later rewind to it is exact, whatever the run:
      the script comes back too. */
  lemma UnjoinableMarkIsExact(c: Config, s: State, actions: seq<Action>, m: Machine, k: nat)
    requires Reached(c, s, actions, m) && k < |m.marks| && !Joinable(m.marks[k].saved.state)
    ensures Legal(c, m, RewindTo(k))
    ensures var saved := m.marks[k].saved.state;
            var n := Act(false, c, m, RewindTo(k));
            n.now == saved.(furthest := m.now.furthest, mode := m.now.mode) && n.exact == m.exact
  {
    hide Reached, LegalRun, Run, Good, PhaseOk, CanRewind, Joinable;
    ReachedIsGood(c, s, actions, m);
    RewindLandsOn(c, m, k);
  }

  /** As long as every rewind was exact, the next one leaves the script in order, apart and behind the cursor
      if and only if it is exact too. */
  lemma RewindLaysOutIff(c: Config, m: Machine, k: nat)
    requires Inv(c, m) && m.exact && k < |m.marks|
    ensures Legal(c, m, RewindTo(k))
    ensures var n := Act(false, c, m, RewindTo(k));
            && Inv(c, n)
            && (Laid(n.now.script.edits, n.now.view.cursor) <==> n.exact)
  {
    hide Good, PhaseOk, CanRewind, Extends, EditsKept, SameWindow;
    RewindKeepsInv(c, m, k);
    var saved := m.marks[k].saved;
    assert Since(saved, m.now, m.joins);
    RewindRestores(saved, m.now, m.joins);
    if !Untouched(saved, m.joins) {
      var i: nat :| i < |saved.state.script.edits| && i in m.joins[saved.joins..];
      assert m.now.script.edits[i].end > saved.state.view.cursor;
      assert Restored(saved.state, m.now).script.edits[i] == m.now.script.edits[i];
    }
  }

  /** The script is in order, apart and behind the cursor in every state of a run. */
  ghost predicate LaidThroughout(c: Config, m: Machine, actions: seq<Action>)
    requires LegalRun(false, c, m, actions)
    decreases |actions|
  {
    && Laid(m.now.script.edits, m.now.view.cursor)
    && (actions == [] || LaidThroughout(c, Act(false, c, m, actions[0]), actions[1..]))
  }

  lemma InexactStaysInexact(c: Config, m: Machine, a: Action)
    requires Legal(c, m, a) && !m.exact
    ensures !Act(false, c, m, a).exact
  {
    hide Next, NextAlways, Enabled, Rewound, CanRewind;
  }

  lemma {:induction false} InexactRunEndsInexact(c: Config, m: Machine, actions: seq<Action>)
    requires LegalRun(false, c, m, actions) && !m.exact
    ensures !Run(false, c, m, actions).exact
    decreases |actions|
  {
    hide Legal, Act;
    if actions != [] {
      InexactStaysInexact(c, m, actions[0]);
      InexactRunEndsInexact(c, Act(false, c, m, actions[0]), actions[1..]);
    }
  }

  lemma LaidWhileExact(c: Config, m: Machine)
    requires Inv(c, m) && m.exact
    ensures Laid(m.now.script.edits, m.now.view.cursor)
  {
  }

  lemma SpoiledAtOnce(c: Config, m: Machine, a: Action)
    requires Inv(c, m) && m.exact && Legal(c, m, a) && !Act(false, c, m, a).exact
    ensures var n := Act(false, c, m, a); !Laid(n.now.script.edits, n.now.view.cursor)
  {
    hide Inv, Next, NextAlways, Enabled, Rewound, CanRewind, Laid;
    if a.RewindTo? {
      RewindLaysOutIff(c, m, a.mark);
    }
  }

  /** Only a rewind that is not exact spoils the layout: the script is laid out throughout a run if and only if
      no rewind undid less than what a delete was joined to. */
  lemma {:induction false} LaidThroughoutIffExact(c: Config, m: Machine, actions: seq<Action>)
    requires c.Valid() && Inv(c, m) && m.exact && LegalRun(false, c, m, actions)
    ensures LaidThroughout(c, m, actions) <==> Run(false, c, m, actions).exact
    decreases |actions|
  {
    LaidWhileExact(c, m);
    hide Inv, Legal, Act, Laid;
    if actions != [] {
      var a := actions[0];
      var n := Act(false, c, m, a);
      ActKeepsInv(c, m, a);
      if n.exact {
        LaidThroughoutIffExact(c, n, actions[1..]);
      } else {
        SpoiledAtOnce(c, m, a);
        InexactRunEndsInexact(c, n, actions[1..]);
      }
    }
  }

  /** For whole attempts: every state is laid out if and only if every rewind was exact. */
  lemma AttemptIsLaidOutIff(c: Config, s: State, actions: seq<Action>)
    requires c.Valid() && Start(s) && LegalRun(false, c, Begin(s), actions)
    ensures LaidThroughout(c, Begin(s), actions) <==> Run(false, c, Begin(s), actions).exact
  {
    hide Inv, LegalRun, Run, LaidThroughout;
    StartIsGood(c, s);
    LaidThroughoutIffExact(c, Begin(s), actions);
  }

  /** In runs whose rewinds were all exact, the script's entries lie in text order, apart, up to the cursor. */
  lemma ScriptIsLaidOut(c: Config, s: State, actions: seq<Action>, m: Machine)
    requires Reached(c, s, actions, m) && m.exact
    ensures Laid(m.now.script.edits, m.now.view.cursor)
  {
    hide Reached, LegalRun, Run;
    ReachedIsGood(c, s, actions, m);
  }

  /** A whole run on the slow path goes through the same states. */
  lemma {:induction false} FastRunIsSlowRun(c: Config, m: Machine, actions: seq<Action>)
    requires c.Valid() && Inv(c, m) && LegalRun(false, c, m, actions)
    ensures LegalRun(true, c, m, actions) && Run(true, c, m, actions) == Run(false, c, m, actions)
    decreases |actions|
  {
    if actions != [] && actions[0].Do? {
      assert PhaseOk(c, m.now.phase, m.now.script.replayed) && Enabled(c, m.now, actions[0].step);
    }
    hide Inv, Legal, Next, NextAlways, Rewound;
    if actions != [] {
      var a := actions[0];
      if a.Do? {
        FastPathRefinesSlow(c, m.now, a.step);
      }
      ActKeepsInv(c, m, a);
      FastRunIsSlowRun(c, Act(false, c, m, a), actions[1..]);
    }
  }

  // A rewind that does not undo -----------------------------------------------------------

  const EVERYTHING := Mode(true, true, true, false, false, false)

  /** A text of six one-byte codepoints, without limits. */
  function Unlimited(): Config {
    Config(6, p => 1, p => false, e => None, 0, MAX, MAX, MAX, false, [], 0)
  }

  /** Trivia at offsets 1 and 2. */
  function Gapped(): Skipper {
    Skipper(p => if p == 1 || p == 2 then 3 else p, p => [])
  }

  function Deletion(begin: nat, end: nat): Edit {
    Edit(Deleted, begin, end, None, "")
  }

  /** Where the counterexample's steps lead: everything but cursor, budget and script stays fresh. */
  ghost predicate At(s: State, cursor: nat, edits: seq<Edit>, bridge: Option<Bridge>) {
    && s.view == View(cursor, 0, [[]]) && s.script == Script(edits, 0, bridge)
    && s.phase == Fresh(EVERYTHING).phase && s.mode == EVERYTHING
    && s.budget.cost <= 40 && s.budget.count <= 10 && s.budget.consecutiveDeletes <= 10 && !s.budget.overflow
  }

  lemma DeletesHere(s: State, cursor: nat, edits: seq<Edit>, bridge: Option<Bridge>)
    requires At(s, cursor, edits, bridge) && cursor < 6 && s.budget.cost <= 30 && s.budget.count < 10 && s.budget.consecutiveDeletes < 10
    ensures Enabled(Unlimited(), s, Step.Delete(Gapped()))
    ensures var t := Next(Unlimited(), s, Step.Delete(Gapped()));
            && At(t, cursor + 1, WithDelete(s.script, cursor, cursor + 1).edits, None)
            && t.budget.cost == s.budget.cost + 4 && t.budget.count <= s.budget.count + 1
            && t.budget.consecutiveDeletes == s.budget.consecutiveDeletes + 1
    ensures Deletes(Unlimited(), s, Step.Delete(Gapped()))
  {
  }

  lemma BridgesHere(s: State)
    requires At(s, 1, [Deletion(0, 1)], None)
    ensures Enabled(Unlimited(), s, Step.ExtendDelete(Gapped()))
    ensures var t := Next(Unlimited(), s, Step.ExtendDelete(Gapped()));
            At(t, 3, [Deletion(0, 1)], Some(Bridge(1, 3))) && t.budget == s.budget
  {
  }

  lemma UnlimitedIsValid()
    ensures Unlimited().Valid()
  {
  }

  lemma StopsHere(c: Config, m: Machine)
    ensures LegalRun(false, c, m, []) && Run(false, c, m, []) == m
  {
  }

  lemma RunsOn(c: Config, m: Machine, a: Action, rest: seq<Action>)
    requires Legal(c, m, a) && LegalRun(false, c, Act(false, c, m, a), rest)
    ensures LegalRun(false, c, m, [a] + rest) && Run(false, c, m, [a] + rest) == Run(false, c, Act(false, c, m, a), rest)
  {
    hide Legal, Act;
    assert ([a] + rest)[1..] == rest;
  }

  const ERASE := Do(Step.Delete(Gapped()))
  const BRIDGE := Do(Step.ExtendDelete(Gapped()))

  lemma EraseActs(m: Machine, cursor: nat, edits: seq<Edit>, bridge: Option<Bridge>)
    requires At(m.now, cursor, edits, bridge) && cursor < 6
    requires m.now.budget.cost <= 30 && m.now.budget.count < 10 && m.now.budget.consecutiveDeletes < 10
    ensures Legal(Unlimited(), m, ERASE)
    ensures var n := Act(false, Unlimited(), m, ERASE);
            && At(n.now, cursor + 1, WithDelete(m.now.script, cursor, cursor + 1).edits, None) && n.marks == m.marks
            && n.now.budget.cost == m.now.budget.cost + 4 && n.now.budget.count <= m.now.budget.count + 1
            && n.now.budget.consecutiveDeletes == m.now.budget.consecutiveDeletes + 1
  {
    DeletesHere(m.now, cursor, edits, bridge);
    hide At, Next, Enabled, WithDelete, Unlimited, Gapped, Tracked, OriginsAfter;
  }

  lemma BridgeActs(m: Machine)
    requires At(m.now, 1, [Deletion(0, 1)], None)
    ensures Legal(Unlimited(), m, BRIDGE)
    ensures var n := Act(false, Unlimited(), m, BRIDGE);
            At(n.now, 3, [Deletion(0, 1)], Some(Bridge(1, 3))) && n.marks == m.marks && n.now.budget == m.now.budget
  {
    BridgesHere(m.now);
    hide At, Next, Enabled, Unlimited, Gapped, Tracked, OriginsAfter;
  }

  /** Back at the mark the cursor is before the end of the entry that grew. */
  lemma RewindActs(m: Machine, saved: State)
    requires At(m.now, 4, [Deletion(0, 4)], None) && At(saved, 1, [Deletion(0, 1)], None)
    requires |m.marks| == 1 && m.marks[0].saved.state == saved && m.marks[0].saved.joins <= |m.joins|
    ensures Legal(Unlimited(), m, RewindTo(0))
    ensures var n := Act(false, Unlimited(), m, RewindTo(0));
            At(n.now, 1, [Deletion(0, 4)], None) && n.now.budget == saved.budget
  {
  }

  lemma TakingAMark(c: Config, m: Machine)
    requires m.now.view.Valid()
    ensures Legal(c, m, TakeMark)
    ensures Act(false, c, m, TakeMark) == m.(marks := m.marks + [LiveMark(Saved(m.now, |m.joins|), m.past)])
  {
  }

  lemma JoinsOnlyGrow(c: Config, m: Machine, a: Action)
    requires Legal(c, m, a)
    ensures |m.joins| <= |Act(false, c, m, a).joins|
  {
    hide Next, NextAlways, Enabled, Rewound, CanRewind;
  }

  lemma DeletesJoin()
    ensures WithDelete(Script([], 0, None), 0, 1).edits == [Deletion(0, 1)]
    ensures WithDelete(Script([Deletion(0, 1)], 0, Some(Bridge(1, 3))), 3, 4).edits == [Deletion(0, 4)]
  {
  }

  /** Up to the rewind: the mark is taken after the first delete, and the second one is joined to it. */
  lemma JoinsAcrossTheMark() returns (m1: Machine, m4: Machine)
    ensures m1 == Act(false, Unlimited(), Begin(Fresh(EVERYTHING)), ERASE) && At(m1.now, 1, [Deletion(0, 1)], None)
    ensures Legal(Unlimited(), Begin(Fresh(EVERYTHING)), ERASE) && Legal(Unlimited(), m1, TakeMark)
    ensures var m2 := Act(false, Unlimited(), m1, TakeMark);
            && Legal(Unlimited(), m2, BRIDGE)
            && (var m3 := Act(false, Unlimited(), m2, BRIDGE); Legal(Unlimited(), m3, ERASE) && m4 == Act(false, Unlimited(), m3, ERASE))
    ensures At(m4.now, 4, [Deletion(0, 4)], None) && |m4.marks| == 1 && m4.marks[0].saved.state == m1.now
    ensures m4.marks[0].saved.joins <= |m4.joins|
    ensures m1.now.budget.cost == 4 && m1.now.budget.count <= 1 && m1.now.budget.consecutiveDeletes == 1
  {
    DeletesJoin();
    var c, m0 := Unlimited(), Begin(Fresh(EVERYTHING));
    EraseActs(m0, 0, [], None);
    hide Act, Legal, Unlimited, WithDelete, Fresh;
    m1 := Act(false, c, m0, ERASE);
    TakingAMark(c, m1);
    var m2 := Act(false, c, m1, TakeMark);
    BridgeActs(m2);
    var m3 := Act(false, c, m2, BRIDGE);
    EraseActs(m3, 3, [Deletion(0, 1)], Some(Bridge(1, 3)));
    m4 := Act(false, c, m3, ERASE);
    JoinsOnlyGrow(c, m2, BRIDGE);
    JoinsOnlyGrow(c, m3, ERASE);
  }

  lemma OverlapIsNotLaid()
    ensures !Laid([Deletion(0, 4), Deletion(1, 2)], 6)
  {
    var edits := [Deletion(0, 4), Deletion(1, 2)];
    assert edits[0].end > edits[1].begin;
  }

  /** Delete, mark, bridge, delete, rewind, delete: the joined entry outlives the rewind, and the next delete lies inside it. */
  lemma RewindCanLeaveOverlap()
    ensures var actions := [ERASE] + ([TakeMark] + ([BRIDGE] + ([ERASE] + ([RewindTo(0)] + ([ERASE] + [])))));
            var m := Begin(Fresh(EVERYTHING));
            && Unlimited().Valid() && LegalRun(false, Unlimited(), m, actions)
            && Run(false, Unlimited(), m, actions).now.script.edits == [Deletion(0, 4), Deletion(1, 2)]
            && !Laid(Run(false, Unlimited(), m, actions).now.script.edits, 6)
  {
    UnlimitedIsValid();
    OverlapIsNotLaid();
    var c := Unlimited();
    var m1, m4 := JoinsAcrossTheMark();
    hide Act, Legal, Unlimited, LegalRun, Run, Laid, Begin;
    var m2 := Act(false, c, m1, TakeMark);
    var m3 := Act(false, c, m2, BRIDGE);
    RewindActs(m4, m1.now);
    var m5 := Act(false, c, m4, RewindTo(0));
    EraseActs(m5, 1, [Deletion(0, 4)], None);
    var m6 := Act(false, c, m5, ERASE);
    StopsHere(c, m6);
    RunsOn(c, m5, ERASE, []);
    RunsOn(c, m4, RewindTo(0), [ERASE] + []);
    RunsOn(c, m3, ERASE, [RewindTo(0)] + ([ERASE] + []));
    RunsOn(c, m2, BRIDGE, [ERASE] + ([RewindTo(0)] + ([ERASE] + [])));
    RunsOn(c, m1, TakeMark, [BRIDGE] + ([ERASE] + ([RewindTo(0)] + ([ERASE] + []))));
    RunsOn(c, Begin(Fresh(EVERYTHING)), ERASE, [TakeMark] + ([BRIDGE] + ([ERASE] + ([RewindTo(0)] + ([ERASE] + [])))));
  }
}
