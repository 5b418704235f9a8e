/** What a recovery attempt does not do: an edit of its own is made only with leave, never before the
    window's edit floor, and never for free. */
module RecoveryConfinement {
  import opened Options
  import opened StrictContext
  import opened RecoveryState
  import opened RecoveryPhase
  import opened RecoveryScript
  import opened RecoveryRewind
  import opened RecoveryRun
  import opened RecoveryTheorems
  import opened RecoveryProgress

  /** The step makes an edit that replays nothing. */
  ghost predicate MakesFresh(c: Config, s: State, step: Step) {
    s.script.replayed >= |c.committed| && (EntryOf(c, s, step).Some? || Deletes(c, s, step))
  }

  function PositionOf(s: State, step: Step): nat {
    match step
    case InsertGap(position, _, _) => position
    case _ => s.view.cursor
  }

  /** The last edit begins and ends at the cursor. */
  predicate InsertedHere(s: State) {
    && s.script.edits != []
    && s.script.edits[|s.script.edits| - 1].begin == s.view.cursor == s.script.edits[|s.script.edits| - 1].end
  }

  /** A fresh edit is tracked, of a kind that is switched on, and not before the edit floor. */
  lemma FreshEditsNeedLeave(c: Config, s: State, step: Step, w: EditWindow)
    requires MakesFresh(c, s, step) && SameWindow(Some(w), s.phase.window)
    ensures s.mode.track && w.editFloor <= PositionOf(s, step)
    ensures step.Insert? || step.InsertGap? ==> s.mode.allowInsert
    ensures step.Delete? ==> s.mode.allowDelete && !c.nul(s.view.cursor)
    ensures step.Delete? && !s.mode.raised ==> s.budget.consecutiveDeletes < c.maxDeletes
  {
  }

  /** Once the window is done, further edits are for callers that opened the door, and for insertions at the last one. */
  lemma NoFreshEditsAfterCompletion(c: Config, s: State, step: Step, w: EditWindow)
    requires MakesFresh(c, s, step) && SameWindow(Some(w), s.phase.window) && s.phase.replay.completed
    ensures s.budget.hadEdits && (s.mode.destructive || (step.Insert? && InsertedHere(s)))
  {
    hide CanAfford, OutsideWindow;
  }

  /** In an open window the first edit may be anywhere past the floor; later deletes and replacements past where the
      parse had failed go on with what was begun there, or put a word right that is one slip away. */
  lemma LaterEditsStayInReach(c: Config, s: State, step: Step, w: EditWindow)
    requires MakesFresh(c, s, step) && SameWindow(Some(w), s.phase.window) && s.phase.replay.inPhase && !s.phase.replay.completed
    requires s.budget.hadEdits && !s.mode.destructive && !InsertedHere(s) && w.maxCursor < s.view.cursor
    ensures step.Delete? ==> 0 < s.budget.consecutiveDeletes
    ensures step.Replace? ==>
      && step.distance == 1 && !c.forbidFold
      && c.literal(step.element).Some? && 3 <= |c.literal(step.element).value.value|
  {
    hide CanAfford, CanDelete;
  }

  /** What the step costs: one for an insertion, four for a delete, its price for a replacement. */
  function PriceOf(step: Step): nat {
    match step
    case Insert(_) => 1
    case InsertGap(_, _, _) => 1
    case Replace(_, _, price, _, _) => price
    case Delete(_) => 4
    case _ => 0
  }

  /** Every edit is charged; a delete that goes on with a run does not count as another edit. */
  lemma EditsAreCharged(c: Config, s: State, step: Step)
    requires Enabled(c, s, step)
    ensures var b, t := s.budget, Next(c, s, step).budget;
            var edits := EntryOf(c, s, step).Some? || Deletes(c, s, step);
            && t.cost == (b.cost + if edits then PriceOf(step) else 0) % 0x1_0000_0000
            && t.count == (b.count + if edits && (!step.Delete? || b.consecutiveDeletes == 0) then 1 else 0) % 0x1_0000_0000
            && (t.hadEdits <==> b.hadEdits || edits)
  {
    hide Next, Enabled, Accepts, Refreshed, Prepared, Finalized;
    NextShape(c, s, step);
  }

  // Over a whole run ------------------------------------------------------------------------

  /** No entry that replays nothing begins before the floor. */
  ghost predicate Confined(floor: nat, edits: seq<Edit>, origins: Origins) {
    |origins| == |edits| && forall i: nat :: i < |edits| && origins[i].None? ==> floor <= edits[i].begin
  }

  ghost predicate AllConfined(floor: nat, m: Machine) {
    && Confined(floor, m.now.script.edits, m.past.origins)
    && forall k: nat :: k < |m.marks| ==> Confined(floor, m.marks[k].saved.state.script.edits, m.marks[k].past.origins)
  }

  lemma EntryIsThere(c: Config, s: State, step: Step)
    ensures EntryOf(c, s, step).Some? ==> EntryOf(c, s, step).value.begin == PositionOf(s, step)
    ensures Deletes(c, s, step) ==> step.Delete? && EntryOf(c, s, step).None?
  {
    hide Accepts;
  }

  lemma StepConfines(c: Config, s: State, step: Step, origins: Origins, w: EditWindow)
    requires c.Valid() && Enabled(c, s, step) && SameWindow(Some(w), s.phase.window) && Confined(w.editFloor, s.script.edits, origins)
    ensures Confined(w.editFloor, Next(c, s, step).script.edits, OriginsAfter(c, s, step, origins))
  {
    hide Next, Enabled, EntryOf, Deletes, Bridges, SameWindow;
    NextScripted(c, s, step);
    if MakesFresh(c, s, step) {
      FreshEditsNeedLeave(c, s, step, w);
    }
    EntryIsThere(c, s, step);
  }

  lemma RewindConfines(floor: nat, before: seq<Edit>, after: seq<Edit>, joins: Joins, origins: Origins)
    requires EditsKept(before, after, joins) && Confined(floor, before, origins)
    ensures Confined(floor, after[..|before|], origins)
  {
    forall i: nat | i < |before| && origins[i].None?
      ensures floor <= after[i].begin
    {
      assert EntryKept(before[i], after[i], i in joins);
    }
  }

  lemma MarkIsSince(c: Config, m: Machine, k: nat)
    requires Inv(c, m) && k < |m.marks|
    ensures Since(m.marks[k].saved, m.now, m.joins) && m.marks[k].saved.joins <= |m.joins|
    ensures EditsKept(m.marks[k].saved.state.script.edits, m.now.script.edits, m.joins[m.marks[k].saved.joins..])
  {
    hide Good, Nested, Laid, EditsKept;
  }

  lemma ActConfines(c: Config, m: Machine, a: Action, w: EditWindow)
    requires c.Valid() && Inv(c, m) && Legal(c, m, a) && Keeps(w, m) && AllConfined(w.editFloor, m)
    ensures AllConfined(w.editFloor, Act(false, c, m, a))
  {
    hide Inv, Next, Enabled, Tracked, Confined, SameWindow, OriginsAfter, Since;
    match a
    case Do(step) => StepConfines(c, m.now, step, m.past.origins, w);
    case RewindTo(k) =>
      MarkIsSince(c, m, k);
      RewindLandsOn(c, m, k);
      var live := m.marks[k];
      RewindConfines(w.editFloor, live.saved.state.script.edits, m.now.script.edits, m.joins[live.saved.joins..], live.past.origins);
    case _ =>
  }

  lemma {:induction false} RunConfines(c: Config, m: Machine, actions: seq<Action>, w: EditWindow)
    requires c.Valid() && Inv(c, m) && LegalRun(false, c, m, actions) && Keeps(w, m) && AllConfined(w.editFloor, m)
    ensures AllConfined(w.editFloor, Run(false, c, m, actions))
    decreases |actions|
  {
    hide Inv, Legal, Act, Keeps, AllConfined;
    if actions != [] {
      ActKeepsInv(c, m, actions[0]);
      ActKeepsWindow(c, m, actions[0], w);
      ActConfines(c, m, actions[0], w);
      RunConfines(c, Act(false, c, m, actions[0]), actions[1..], w);
    }
  }

  /** Wherever an attempt on a window gets, with any rewinds between, each entry of its script replays a committed
      edit or begins at or past the window's edit floor. */
  lemma FreshEditsStayPastTheFloor(c: Config, mode: Mode, w: EditWindow, actions: seq<Action>, m: Machine)
    requires ReachedWith(c, mode, w, actions, m)
    ensures |m.past.origins| == |m.now.script.edits|
    ensures forall i: nat :: i < |m.now.script.edits| && m.past.origins[i].None? ==> w.editFloor <= m.now.script.edits[i].begin
  {
    var s := Windowed(Fresh(mode), Some(w));
    ReachedIsGood(c, s, actions, m);
    StartIsGood(c, s);
    StartsWith(mode, w);
    hide LegalRun, Run, Inv, Keeps;
    RunConfines(c, Begin(s), actions, w);
  }
}
