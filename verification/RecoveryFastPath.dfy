/** The bookkeeping switch is an optimization: a context that refreshes its phase and runs its leaf
    hook on every call, switch or no switch, goes through the same states. */
module RecoveryFastPath {
  import opened Extremes
  import opened Options
  import opened StrictContext
  import opened RecoveryState
  import opened RecoveryPhase

  function SettleAlways(c: Config, s: State): State {
    s.(phase := RefreshedSlow(c, s.phase, s.budget, s.script.replayed, s.view.cursor))
  }

  ghost function SkippedAlways(c: Config, s: State, skipper: Skipper): State
    requires s.view.Valid()
  {
    SettleAlways(c, Unbridged(s.(view := SkippedView(s.view, skipper), furthest := Max(s.furthest, skipper.next(s.view.cursor)))))
  }

  ghost function LeafedAlways(c: Config, s: State, begin: nat, end: nat, element: Element, hidden: bool): State
    requires s.view.Valid()
  {
    var u := Unbridged(s).(view := LeafedView(s.view, begin, end, element, hidden), furthest := Max(s.furthest, end));
    var p := if !hidden && begin < end then Counted(c, s.phase, s.budget.hadEdits, begin) else s.phase;
    var t := SettleAlways(c, u.(phase := p));
    t.(budget := RunEnded(t.budget, t.mode))
  }

  ghost function DeletedAlways(c: Config, s: State, skipper: Skipper): State
    requires s.view.Valid()
  {
    var t := Erased(c, s);
    Advanced(c, if s.mode.skipAfterDelete then SkippedAlways(c, t, skipper) else SettleAlways(c, t), PendingCommitted(c, s.script.replayed))
  }

  function BridgedAlways(c: Config, s: State, skipper: Skipper): State {
    Advanced(c, SettleAlways(c, BridgedTo(s, skipper.next(s.view.cursor))), PendingCommitted(c, s.script.replayed))
  }

  /** The step of a context that never takes the fast path. */
  ghost function NextAlways(c: Config, s: State, step: Step): State
    requires Enabled(c, s, step)
  {
    if !Accepts(c, s, step) then Next(c, s, step)
    else
      match step
      case Skip(skipper) => SkippedAlways(c, s, skipper)
      case Leaf(begin, end, element, hidden) => LeafedAlways(c, s, begin, end, element, hidden)
      case InsertGap(position, message, element) =>
        LeafedAlways(c, Edited(c, s, Gap(position, message), INSERT_COST), s.view.cursor, position, element, false)
      case Replace(end, element, price, hidden, _) =>
        LeafedAlways(c, Edited(c, s, Replacement(s, end, element), price), s.view.cursor, end, element, hidden)
      case Delete(skipper) => DeletedAlways(c, s, skipper)
      case ExtendDelete(skipper) => BridgedAlways(c, s, skipper)
      case _ => Next(c, s, step)
  }

  /** With bookkeeping off there is nothing a refresh or the leaf hook could change. */
  lemma NothingLeftToDo(c: Config, p: Phase, b: Budget, replayed: nat, cursor: nat, hadEdits: bool, begin: nat)
    requires PhaseOk(c, p, replayed) && !p.replay.bookkeeping
    ensures RefreshedSlow(c, p, b, replayed, cursor) == p
    ensures Counted(c, p, hadEdits, begin) == p
  {
  }

  lemma SettleIsSettleAlways(c: Config, s: State)
    requires PhaseOk(c, s.phase, s.script.replayed)
    ensures Settle(c, s) == SettleAlways(c, s)
  {
    if !s.phase.replay.bookkeeping {
      NothingLeftToDo(c, s.phase, s.budget, s.script.replayed, s.view.cursor, false, 0);
    }
  }

  lemma LeafedIsLeafedAlways(c: Config, s: State, begin: nat, end: nat, element: Element, hidden: bool)
    requires s.view.Valid() && PhaseOk(c, s.phase, s.script.replayed)
    ensures Leafed(c, s, begin, end, element, hidden) == LeafedAlways(c, s, begin, end, element, hidden)
  {
    hide PhaseOk, Counted, RefreshedSlow, LeafedView, Settle, SettleAlways;
    var hooked := Hooked(c, s.phase, s.budget.hadEdits, begin, end, hidden);
    if !s.phase.replay.bookkeeping {
      NothingLeftToDo(c, s.phase, s.budget, s.script.replayed, s.view.cursor, s.budget.hadEdits, begin);
    }
    HookKeepsPhase(c, s.phase, s.script.replayed, s.budget.hadEdits, begin, end, hidden);
    var u := Unbridged(s).(view := LeafedView(s.view, begin, end, element, hidden), furthest := Max(s.furthest, end), phase := hooked);
    SettleIsSettleAlways(c, u);
  }

  /** The fast path refines the slow one, step by step. */
  lemma FastPathRefinesSlow(c: Config, s: State, step: Step)
    requires Enabled(c, s, step) && PhaseOk(c, s.phase, s.script.replayed)
    ensures Next(c, s, step) == NextAlways(c, s, step)
  {
    assert Erased(c, s).script.replayed == s.script.replayed;
    hide PhaseOk, Accepts, Settle, SettleAlways, Leafed, LeafedAlways, Advanced, Noted, WithDelete, View.Append;
    match step
    case Skip(skipper) =>
      SettleIsSettleAlways(c, Unbridged(s.(view := SkippedView(s.view, skipper), furthest := Max(s.furthest, skipper.next(s.view.cursor)))));
    case Leaf(begin, end, element, hidden) => LeafedIsLeafedAlways(c, s, begin, end, element, hidden);
    case InsertGap(position, message, element) =>
      var t := Edited(c, s, Gap(position, message), INSERT_COST);
      ReplayKeepsPhase(c, s.phase, Inserted, s.script.replayed, t.script.replayed);
      LeafedIsLeafedAlways(c, t, s.view.cursor, position, element, false);
    case Replace(end, element, price, hidden, _) =>
      var t := Edited(c, s, Replacement(s, end, element), price);
      ReplayKeepsPhase(c, s.phase, Replaced, s.script.replayed, t.script.replayed);
      LeafedIsLeafedAlways(c, t, s.view.cursor, end, element, hidden);
    case Delete(skipper) =>
      var t := Erased(c, s);
      ReplayKeepsPhase(c, s.phase, Deleted, s.script.replayed, s.script.replayed);
      SettleIsSettleAlways(c, t);
      SettleIsSettleAlways(c, Unbridged(t.(view := SkippedView(t.view, skipper), furthest := Max(t.furthest, skipper.next(t.view.cursor)))));
    case ExtendDelete(skipper) => SettleIsSettleAlways(c, BridgedTo(s, skipper.next(s.view.cursor)));
    case _ =>
  }
}
