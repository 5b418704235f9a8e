/** What a recovery attempt gets done: its window opens when it may, closes when it is due, and then
    turns stable; and an edit that is permitted and paid for goes through. */
module RecoveryProgress {
  import opened Extremes
  import opened Options
  import opened StrictContext
  import opened RecoveryState
  import opened RecoveryPhase
  import opened RecoveryScript
  import opened RecoveryRewind
  import opened RecoveryRun
  import opened RecoveryTheorems

  // The window stays the one that was set ------------------------------------------------

  /** Now and at every live mark, the window is `w` but for the tokens replays added to it. */
  ghost predicate Keeps(w: EditWindow, m: Machine) {
    && SameWindow(Some(w), m.now.phase.window)
    && forall k: nat :: k < |m.marks| ==> SameWindow(Some(w), m.marks[k].saved.state.phase.window)
  }

  lemma ActKeepsWindow(c: Config, m: Machine, a: Action, w: EditWindow)
    requires c.Valid() && Inv(c, m) && Legal(c, m, a) && Keeps(w, m)
    ensures Keeps(w, Act(false, c, m, a))
  {
    match a
    case Do(step) =>
      assert Enabled(c, m.now, step) && PhaseOk(c, m.now.phase, m.now.script.replayed);
      hide Inv, Legal, Next, Enabled, PhaseOk, Tracked;
      NextKeepsWindow(c, m.now, step);
    case RewindTo(k) =>
      assert Since(m.marks[k].saved, m.now, m.joins);
      hide Inv, Legal, Since, Act;
      RewindLandsOn(c, m, k);
    case _ => hide Inv;
  }

  lemma {:induction false} RunKeepsWindow(c: Config, m: Machine, actions: seq<Action>, w: EditWindow)
    requires c.Valid() && Inv(c, m) && LegalRun(false, c, m, actions) && Keeps(w, m)
    ensures Keeps(w, Run(false, c, m, actions))
    decreases |actions|
  {
    hide Inv, Legal, Act, Keeps;
    if actions != [] {
      ActKeepsInv(c, m, actions[0]);
      ActKeepsWindow(c, m, actions[0], w);
      RunKeepsWindow(c, Act(false, c, m, actions[0]), actions[1..], w);
    }
  }

  /** `m` is where some run of an attempt on the window `w` ends. */
  ghost predicate ReachedWith(c: Config, mode: Mode, w: EditWindow, actions: seq<Action>, m: Machine) {
    Reached(c, Windowed(Fresh(mode), Some(w)), actions, m)
  }

  lemma StartsWith(mode: Mode, w: EditWindow)
    ensures Start(Windowed(Fresh(mode), Some(w))) && Keeps(w, Begin(Windowed(Fresh(mode), Some(w))))
  {
  }

  lemma ReachedKeepsWindow(c: Config, mode: Mode, w: EditWindow, actions: seq<Action>, m: Machine)
    requires ReachedWith(c, mode, w, actions, m)
    ensures c.Valid() && Inv(c, m) && PhaseOk(c, m.now.phase, m.now.script.replayed) && SameWindow(Some(w), m.now.phase.window)
  {
    var s := Windowed(Fresh(mode), Some(w));
    ReachedIsGood(c, s, actions, m);
    StartIsGood(c, s);
    StartsWith(mode, w);
    hide LegalRun, Run;
    RunKeepsWindow(c, Begin(s), actions, w);
  }

  // Opening and closing --------------------------------------------------------------------

  /** Where the replay stands when the step refreshes the phase: a delete or a bridge catches up afterwards. */
  ghost function ReplayedAtRefresh(s: State, step: Step, t: State): nat {
    if step.Delete? || step.ExtendDelete? then s.script.replayed else t.script.replayed
  }

  lemma RefreshOpens(c: Config, p: Phase, b: Budget, replayed: nat, cursor: nat)
    requires PhaseOk(c, p, replayed) && p.window.Some?
    ensures var q := Refreshed(c, p, b, replayed, cursor);
            && (p.replay.inPhase && !q.replay.completed ==> q.replay == p.replay)
            && (!p.replay.inPhase && !q.replay.completed && replayed >= |c.committed|
                && p.window.value.begin <= cursor && c.resumeFloor <= cursor ==>
                  q.replay.inPhase && q.replay.costBase == b.cost && q.replay.countBase == b.count && q.replay.forward == 0)
  {
  }

  /** An edit and a leaf before the refresh neither open nor close a window, nor move its base. */
  lemma PreparedKeepsOpen(c: Config, s: State, step: Step)
    ensures var p := Prepared(c, s, step);
            && p.replay.inPhase == s.phase.replay.inPhase && p.replay.completed == s.phase.replay.completed
            && p.replay.costBase == s.phase.replay.costBase && p.replay.countBase == s.phase.replay.countBase
            && SameWindow(s.phase.window, p.window)
  {
    hide SpendOf, LeafOf, Paid;
  }

  lemma RefreshedFrom(c: Config, s: State, step: Step)
    requires c.Valid() && Enabled(c, s, step) && Refreshes(c, s, step)
    ensures var t := Next(c, s, step);
            exists b: Budget :: b.cost == t.budget.cost && b.count == t.budget.count
              && t.phase == Refreshed(c, Prepared(c, s, step), b, ReplayedBy(c, s.script.replayed, SpendOf(c, s, step)), t.view.cursor)
  {
    hide Next, Enabled, Refreshed, Prepared, ReplayedBy, Paid, SpendOf;
    NextShape(c, s, step);
  }

  lemma SpentIsEntry(c: Config, s: State, step: Step)
    ensures EntryOf(c, s, step).Some? <==> SpendOf(c, s, step).Spent? && SpendOf(c, s, step).kind != Deleted
    ensures Deletes(c, s, step) ==> step.Delete?
    ensures Bridges(c, s, step) ==> step.ExtendDelete?
    ensures EntryOf(c, s, step).Some? ==> !step.Delete? && !step.ExtendDelete?
  {
    hide Accepts;
  }

  lemma RefreshedAt(c: Config, s: State, step: Step)
    requires c.Valid() && Enabled(c, s, step)
    ensures ReplayedBy(c, s.script.replayed, SpendOf(c, s, step)) == ReplayedAtRefresh(s, step, Next(c, s, step))
  {
    SpentIsEntry(c, s, step);
    hide Next, Enabled, EntryOf, Deletes, Bridges, SpendOf, Merges;
    NextScripted(c, s, step);
  }

  /** A window opens at the first refresh at or past its begin and the resume floor with no committed edit pending,
      with its budget based on what has been charged by then; and it stays open, on that base, until it is completed. */
  lemma WindowOpensWhenReached(c: Config, mode: Mode, w: EditWindow, actions: seq<Action>, m: Machine, step: Step)
    requires ReachedWith(c, mode, w, actions, m) && Enabled(c, m.now, step) && Refreshes(c, m.now, step)
    requires var t := Next(c, m.now, step);
             && !t.phase.replay.completed && ReplayedAtRefresh(m.now, step, t) >= |c.committed|
             && w.begin <= t.view.cursor && c.resumeFloor <= t.view.cursor
    ensures var s, t := m.now.phase.replay, Next(c, m.now, step);
            && t.phase.replay.inPhase
            && (if s.inPhase then t.phase.replay.costBase == s.costBase && t.phase.replay.countBase == s.countBase
                else t.phase.replay.costBase == t.budget.cost && t.phase.replay.countBase == t.budget.count && t.phase.replay.forward == 0)
  {
    hide ReachedWith, Inv, Next, Enabled, Refreshes, Refreshed, Prepared, PhaseOk, SpendOf, ReplayedBy;
    ReachedKeepsWindow(c, mode, w, actions, m);
    RefreshedFrom(c, m.now, step);
    RefreshedAt(c, m.now, step);
    PreparedIsOk(c, m.now, step);
    PreparedKeepsOpen(c, m.now, step);
    var t := Next(c, m.now, step);
    var p, replayed := Prepared(c, m.now, step), ReplayedBy(c, m.now.script.replayed, SpendOf(c, m.now, step));
    var b: Budget :| b.cost == t.budget.cost && b.count == t.budget.count && t.phase == Refreshed(c, p, b, replayed, t.view.cursor);
    RefreshOpens(c, p, b, replayed, t.view.cursor);
  }

  lemma RefreshCloses(c: Config, p: Phase, b: Budget, replayed: nat, cursor: nat)
    requires PhaseOk(c, p, replayed) && WindowOpen(p)
    ensures var q := Refreshed(c, p, b, replayed, cursor);
            && q.window == p.window
            && (q.replay.completed <==> p.window.value.forwardTokens <= p.replay.forward && p.window.value.replayTokens <= p.replay.forward)
            && (q.replay.completed ==>
                  && !q.replay.inPhase && q.replay.reachedTarget && q.replay.awaiting && !q.replay.stable && q.replay.strict == 0)
  {
  }

  lemma PreparedCounts(c: Config, s: State, step: Step)
    requires WindowOpen(s.phase) && PhaseOk(c, s.phase, s.script.replayed)
    ensures var p := Prepared(c, s, step);
            WindowOpen(p) && p.replay.forward == s.phase.replay.forward + if CountsLeaf(c, s, step) then 1 else 0
  {
    var spend := SpendOf(c, s, step);
    PreparedIsOk(c, s, step);
    if spend.Spent? {
      NotingRaisesTheBar(c, s.phase, spend.kind);
    }
    HookCountsOne(c, NotedSpend(c, s.phase, spend), ReplayedBy(c, s.script.replayed, spend), Paid(s.budget, spend).hadEdits, LeafOf(c, s, step));
    hide SpendOf, LeafOf, Noted, PhaseOk, HookedLeaf;
  }

  /** A refresh completes an open window exactly when the leaves counted reach both of its token counts;
      it has then reached its target and awaits stability. */
  lemma WindowClosesWhenDue(c: Config, mode: Mode, w: EditWindow, actions: seq<Action>, m: Machine, step: Step)
    requires ReachedWith(c, mode, w, actions, m) && Enabled(c, m.now, step) && Refreshes(c, m.now, step) && WindowOpen(m.now.phase)
    ensures var s, t := m.now.phase.replay, Next(c, m.now, step).phase;
            var leaves := s.forward + if CountsLeaf(c, m.now, step) then 1 else 0;
            && t.window.Some?
            && (t.replay.completed <==> t.window.value.forwardTokens <= leaves && t.window.value.replayTokens <= leaves)
            && (t.replay.completed ==>
                  && !t.replay.inPhase && t.replay.reachedTarget && t.replay.awaiting && !t.replay.stable && t.replay.strict == 0)
  {
    hide ReachedWith, Inv, Next, Enabled, Refreshes, Refreshed, PhaseOk, SpendOf, LeafOf, ReplayedBy, CountsLeaf, Prepared;
    ReachedKeepsWindow(c, mode, w, actions, m);
    RefreshedFrom(c, m.now, step);
    PreparedIsOk(c, m.now, step);
    PreparedCounts(c, m.now, step);
    var t := Next(c, m.now, step);
    var p, replayed := Prepared(c, m.now, step), ReplayedBy(c, m.now.script.replayed, SpendOf(c, m.now, step));
    var b: Budget :| b.cost == t.budget.cost && b.count == t.budget.count && t.phase == Refreshed(c, p, b, replayed, t.view.cursor);
    RefreshCloses(c, p, b, replayed, t.view.cursor);
  }

  // Turning stable ----------------------------------------------------------------------------

  /** Steps and marks, but no way back. */
  ghost predicate Onward(actions: seq<Action>) {
    forall a <- actions :: !a.RewindTo?
  }

  ghost predicate AddsVisible(c: Config, s: State, step: Step) {
    LeafOf(c, s, step).Some? && !LeafOf(c, s, step).value.hidden && LeafOf(c, s, step).value.begin < LeafOf(c, s, step).value.end
  }

  /** The visible leaves the actions add. */
  ghost function VisibleLeaves(c: Config, m: Machine, actions: seq<Action>): nat
    requires LegalRun(false, c, m, actions)
    decreases |actions|
  {
    if actions == [] then 0
    else
      VisibleLeaves(c, Act(false, c, m, actions[0]), actions[1..])
      + if actions[0].Do? && AddsVisible(c, m.now, actions[0].step) then 1 else 0
  }

  /** A completed window that awaits stability with `k` leaves counted, or is stable already. */
  predicate Settling(c: Config, p: Phase, k: nat) {
    && p.replay.completed && !p.replay.inPhase
    && (p.replay.stable || (p.replay.awaiting && p.replay.strict == k && (k == 0 || k < c.stabilityTokens)))
  }

  lemma HookSettles(c: Config, p: Phase, hadEdits: bool, leaf: Option<Span>, k: nat, replayed: nat)
    requires Settling(c, p, k) && PhaseOk(c, p, replayed)
    ensures var q := HookedLeaf(c, p, hadEdits, leaf);
            Settling(c, q, if leaf.Some? && !leaf.value.hidden && leaf.value.begin < leaf.value.end then k + 1 else k)
  {
  }

  lemma RefreshSettles(c: Config, p: Phase, b: Budget, replayed: nat, cursor: nat, k: nat)
    requires Settling(c, p, k) && PhaseOk(c, p, replayed)
    ensures Settling(c, Refreshed(c, p, b, replayed, cursor), k) && Settling(c, Finalized(c, p, cursor), k)
  {
  }

  lemma NextSettles(c: Config, s: State, step: Step, k: nat)
    requires Enabled(c, s, step) && Settling(c, s.phase, k) && PhaseOk(c, s.phase, s.script.replayed)
    ensures Settling(c, Next(c, s, step).phase, if AddsVisible(c, s, step) then k + 1 else k)
  {
    var spend := SpendOf(c, s, step);
    assert NotedSpend(c, s.phase, spend) == s.phase;
    var replayed := ReplayedBy(c, s.script.replayed, spend);
    StepsAreOneKind(c, s, step);
    PreparedIsOk(c, s, step);
    HookSettles(c, s.phase, Paid(s.budget, spend).hadEdits, LeafOf(c, s, step), k, replayed);
    NextShape(c, s, step);
    hide Next, Enabled, Settling, PhaseOk, SpendOf, LeafOf, Refreshed, Finalized, Refreshes, HookedLeaf;
    RefreshSettles(c, Prepared(c, s, step), Paid(s.budget, spend), replayed, Next(c, s, step).view.cursor,
                   if AddsVisible(c, s, step) then k + 1 else k);
    RefreshSettles(c, s.phase, s.budget, s.script.replayed, s.view.cursor, k);
  }

  lemma OnwardOn(actions: seq<Action>)
    requires actions != [] && Onward(actions)
    ensures Onward(actions[1..]) && !actions[0].RewindTo?
  {
    assert forall x <- actions[1..] :: x in actions;
  }

  lemma InvHasPhase(c: Config, m: Machine)
    requires Inv(c, m)
    ensures PhaseOk(c, m.now.phase, m.now.script.replayed)
  {
  }

  lemma {:induction false} RunSettles(c: Config, m: Machine, actions: seq<Action>, k: nat)
    requires c.Valid() && Inv(c, m) && LegalRun(false, c, m, actions) && Onward(actions) && Settling(c, m.now.phase, k)
    ensures Settling(c, Run(false, c, m, actions).now.phase, k + VisibleLeaves(c, m, actions))
    decreases |actions|
  {
    hide Inv, Settling, AddsVisible, Next, Enabled, Onward;
    if actions != [] {
      var a := actions[0];
      ActKeepsInv(c, m, a);
      OnwardOn(actions);
      var k' := if a.Do? && AddsVisible(c, m.now, a.step) then k + 1 else k;
      if a.Do? {
        InvHasPhase(c, m);
        NextSettles(c, m.now, a.step, k);
      }
      RunSettles(c, Act(false, c, m, a), actions[1..], k');
    }
  }

  lemma EnoughLeaves(c: Config, p: Phase, k: nat)
    requires Settling(c, p, k) && k >= 1 && k >= c.stabilityTokens
    ensures p.replay.stable
  {
  }

  lemma AwaitingSettles(c: Config, p: Phase, replayed: nat)
    requires PhaseOk(c, p, replayed) && p.replay.awaiting && p.replay.strict == 0
    ensures Settling(c, p, 0)
  {
  }

  /** Once it awaits stability, an attempt that does not go back is stable after as many more visible leaves as that asks for. */
  lemma StableAfterLeaves(c: Config, m: Machine, actions: seq<Action>)
    requires c.Valid() && Inv(c, m) && LegalRun(false, c, m, actions) && Onward(actions)
    requires m.now.phase.replay.awaiting && m.now.phase.replay.strict == 0
    requires VisibleLeaves(c, m, actions) >= 1 && VisibleLeaves(c, m, actions) >= c.stabilityTokens
    ensures Run(false, c, m, actions).now.phase.replay.stable
  {
    hide Inv, LegalRun, Run, VisibleLeaves, Settling, PhaseOk, Onward;
    InvHasPhase(c, m);
    AwaitingSettles(c, m.now.phase, m.now.script.replayed);
    RunSettles(c, m, actions, 0);
    EnoughLeaves(c, Run(false, c, m, actions).now.phase, VisibleLeaves(c, m, actions));
  }

  /** From the refresh that completes the window on: as many visible leaves as stability asks for make the attempt stable. */
  lemma CompletedWindowTurnsStable(c: Config, mode: Mode, w: EditWindow, before: seq<Action>, m: Machine, step: Step, actions: seq<Action>)
    requires ReachedWith(c, mode, w, before, m) && Legal(c, m, Do(step)) && Refreshes(c, m.now, step) && WindowOpen(m.now.phase)
    requires var n := Act(false, c, m, Do(step));
             && n.now.phase.replay.completed && LegalRun(false, c, n, actions) && Onward(actions)
             && VisibleLeaves(c, n, actions) >= 1 && VisibleLeaves(c, n, actions) >= c.stabilityTokens
    ensures Run(false, c, Act(false, c, m, Do(step)), actions).now.phase.replay.stable
  {
    var n := Act(false, c, m, Do(step));
    assert c.Valid() && Enabled(c, m.now, step) && n.now == Next(c, m.now, step);
    hide ReachedWith, Inv, Legal, Act, LegalRun, Run, VisibleLeaves, Refreshes, Next, Enabled, WindowOpen, Onward;
    ReachedKeepsWindow(c, mode, w, before, m);
    ActKeepsInv(c, m, Do(step));
    WindowClosesWhenDue(c, mode, w, before, m, step);
    StableAfterLeaves(c, n, actions);
  }

  /** At the end of the text a final call closes an open window and grants stability, whatever the counts. */
  lemma EndIsStable(c: Config, s: State)
    requires Enabled(c, s, Finalize) && s.view.cursor == c.size && (WindowOpen(s.phase) || s.phase.replay.awaiting)
    ensures var t := Next(c, s, Finalize).phase.replay;
            t.stable && !t.awaiting && (WindowOpen(s.phase) ==> t.completed && t.reachedTarget && !t.inPhase)
  {
  }

  // Edits ---------------------------------------------------------------------------------------

  /** An edit of this price still fits the budget that applies: that of the open window from its base on, or the whole one. */
  predicate Payable(c: Config, s: State, price: nat) {
    var count, cost := if WindowOpen(s.phase) then s.phase.replay.countBase else 0, if WindowOpen(s.phase) then s.phase.replay.costBase else 0;
    && count <= s.budget.count && cost <= s.budget.cost
    && s.budget.count - count < c.maxEdits && s.budget.cost - cost + price <= c.maxCost
  }

  lemma PayableIsAfforded(c: Config, s: State, price: U32)
    requires Payable(c, s, price)
    ensures CanAfford(c, s, price)
  {
  }

  /** The window lets edits through at the position: it is open and its floor is behind. */
  predicate Editable(c: Config, s: State, position: nat) {
    && s.mode.track && s.script.replayed >= |c.committed|
    && WindowOpen(s.phase) && s.phase.window.value.editFloor <= position
  }

  /** In an open window an insertion that is allowed and paid for goes through. */
  lemma InsertionGoesThrough(c: Config, s: State, element: Element)
    requires s.view.Valid() && s.view.cursor <= c.size && s.mode.allowInsert && Editable(c, s, s.view.cursor) && Payable(c, s, 1)
    ensures Enabled(c, s, Step.Insert(element))
    ensures var t := Next(c, s, Step.Insert(element));
            && t.script.edits == s.script.edits + [Edit(Inserted, s.view.cursor, s.view.cursor, Some(element), "")]
            && t.view == s.view && t.budget.hadEdits
  {
    PayableIsAfforded(c, s, 1);
    hide CanAfford, Noted;
  }

  lemma GapGoesThrough(c: Config, s: State, position: nat, message: string, element: Element)
    requires c.Valid() && s.view.Valid() && s.view.cursor <= position <= c.size && s.mode.allowInsert
    requires Editable(c, s, position) && Payable(c, s, 1)
    ensures Enabled(c, s, Step.InsertGap(position, message, element))
    ensures var t := Next(c, s, Step.InsertGap(position, message, element));
            t.script.edits == s.script.edits + [Edit(Inserted, position, position, None, message)] && t.view.cursor == position
  {
    PayableIsAfforded(c, s, 1);
    var step := Step.InsertGap(position, message, element);
    assert AcceptsGap(c, s, position, message) by { hide CanAfford; }
    hide CanAfford, Noted, AcceptsGap, Leafed;
    LeafedScript(c, Edited(c, s, Gap(position, message), INSERT_COST), s.view.cursor, position, element, false);
  }

  /** So does a replacement that ends in the text, begun no further than where the window's failure was. */
  lemma ReplacementGoesThrough(c: Config, s: State, end: nat, element: Element, price: U32, hidden: bool, distance: U32)
    requires c.Valid() && s.view.Valid() && s.view.cursor < end <= c.size && Editable(c, s, s.view.cursor) && Payable(c, s, price)
    requires s.view.cursor <= s.phase.window.value.maxCursor
    ensures Enabled(c, s, Step.Replace(end, element, price, hidden, distance))
    ensures var t := Next(c, s, Step.Replace(end, element, price, hidden, distance));
            t.script.edits == s.script.edits + [Edit(Replaced, s.view.cursor, end, Some(element), "")] && t.view.cursor == end
  {
    PayableIsAfforded(c, s, price);
    assert AcceptsReplace(c, s, end, element, price, distance) by { hide CanAfford, WordKeyword; }
    hide CanAfford, Noted, AcceptsReplace, Leafed;
    LeafedScript(c, Edited(c, s, Replacement(s, end, element), price), s.view.cursor, end, element, hidden);
  }

  /** And a delete, while the run of deletes is short enough. */
  lemma DeleteGoesThrough(c: Config, s: State, skipper: Skipper)
    requires c.Valid() && s.view.Valid() && s.view.cursor < c.size && skipper.Valid(c.size) && s.mode.allowDelete
    requires Editable(c, s, s.view.cursor) && Payable(c, s, 4) && s.view.cursor <= s.phase.window.value.maxCursor
    requires s.budget.consecutiveDeletes < c.maxDeletes && !c.nul(s.view.cursor) && c.width(s.view.cursor) > 0
    ensures Enabled(c, s, Step.Delete(skipper))
    ensures var t := Next(c, s, Step.Delete(skipper));
            && s.view.cursor + c.width(s.view.cursor) <= t.view.cursor
            && t.script.edits == WithDelete(s.script, s.view.cursor, s.view.cursor + c.width(s.view.cursor)).edits
  {
    PayableIsAfforded(c, s, 4);
    assert AcceptsDelete(c, s) by { hide CanAfford; }
    hide CanAfford, Noted, AcceptsDelete, DeletedStep, WithDelete;
    DeletedScript(c, s, skipper);
  }

  /** A committed insertion, replacement or delete that is pending goes through where it was made, and the replay moves on. */
  lemma CommittedInsertionGoesThrough(c: Config, s: State, element: Element)
    requires s.view.Valid() && s.view.cursor <= c.size && s.mode.track && s.mode.allowInsert && CanAfford(c, s, 1)
    requires s.script.replayed < |c.committed|
    requires c.committed[s.script.replayed] == Edit(Inserted, s.view.cursor, s.view.cursor, Some(element), "")
    ensures Enabled(c, s, Step.Insert(element))
    ensures var t := Next(c, s, Step.Insert(element)).script;
            t.edits == s.script.edits + [c.committed[s.script.replayed]] && t.replayed == s.script.replayed + 1
  {
    hide CanAfford, Noted;
  }

  lemma CommittedReplacementGoesThrough(c: Config, s: State, end: nat, element: Element, price: U32, hidden: bool, distance: U32)
    requires c.Valid() && s.view.Valid() && s.view.cursor < end <= c.size && s.mode.track && CanAfford(c, s, price) && !WindowOpen(s.phase)
    requires s.script.replayed < |c.committed|
    requires c.committed[s.script.replayed] == Edit(Replaced, s.view.cursor, end, Some(element), "")
    ensures Enabled(c, s, Step.Replace(end, element, price, hidden, distance))
    ensures var t := Next(c, s, Step.Replace(end, element, price, hidden, distance)).script;
            t.edits == s.script.edits + [c.committed[s.script.replayed]] && t.replayed == s.script.replayed + 1
  {
    assert AcceptsReplace(c, s, end, element, price, distance) by { hide CanAfford, WordKeyword; }
    hide CanAfford, Noted, AcceptsReplace, Leafed;
    LeafedScript(c, Edited(c, s, Replacement(s, end, element), price), s.view.cursor, end, element, hidden);
  }

  lemma CommittedDeleteGoesThrough(c: Config, s: State, skipper: Skipper)
    requires c.Valid() && s.view.Valid() && s.view.cursor < c.size && skipper.Valid(c.size) && s.mode.track && CanAfford(c, s, 4)
    requires !WindowOpen(s.phase) && s.script.replayed < |c.committed| && c.committed[s.script.replayed].kind == Deleted
    requires c.committed[s.script.replayed].begin <= s.view.cursor < c.committed[s.script.replayed].end && c.width(s.view.cursor) > 0
    ensures Enabled(c, s, Step.Delete(skipper))
    ensures var t := Next(c, s, Step.Delete(skipper));
            && s.view.cursor + c.width(s.view.cursor) <= t.view.cursor
            && t.script.edits == WithDelete(s.script, s.view.cursor, s.view.cursor + c.width(s.view.cursor)).edits
            && (t.script.replayed > s.script.replayed <==> c.committed[s.script.replayed].end <= t.view.cursor)
  {
    assert AcceptsDelete(c, s) by { hide CanAfford; }
    hide CanAfford, Noted, AcceptsDelete, DeletedStep, WithDelete;
    DeletedScript(c, s, skipper);
  }
}
