/** What every step of a recovery attempt keeps true of its window, and of what the window was charged.

    All invariants here are about one state and a short history of the branch that led to it, so
    going back to a mark, which restores both, keeps them as well. */
module RecoveryPhase {
  import opened Options
  import opened StrictContext
  import opened RecoveryState

  // One shape for all steps ---------------------------------------------------------

  /** What a step pays for. */
  datatype Spend = Free | Spent(kind: Kind, price: U32)

  ghost function SpendOf(c: Config, s: State, step: Step): Spend {
    if !Accepts(c, s, step) then Free
    else
      match step
      case Insert(_) => Spent(Inserted, INSERT_COST)
      case InsertGap(_, _, _) => Spent(Inserted, INSERT_COST)
      case Replace(_, _, price, _, _) => Spent(Replaced, price)
      case Delete(_) => Spent(Deleted, DELETE_COST)
      case _ => Free
  }

  datatype Span = Span(begin: nat, end: nat, hidden: bool)

  /** The leaf a step adds to the tree. */
  ghost function LeafOf(c: Config, s: State, step: Step): Option<Span> {
    if !Accepts(c, s, step) then None
    else
      match step
      case Leaf(begin, end, _, hidden) => Some(Span(begin, end, hidden))
      case InsertGap(position, _, _) => Some(Span(s.view.cursor, position, false))
      case Replace(end, _, _, hidden, _) => Some(Span(s.view.cursor, end, hidden))
      case _ => None
  }

  ghost predicate Refreshes(c: Config, s: State, step: Step) {
    Accepts(c, s, step) && (step.Skip? || step.Leaf? || step.InsertGap? || step.Replace? || step.Delete? || step.ExtendDelete?)
  }

  function Paid(b: Budget, spend: Spend): Budget {
    match spend
    case Free => b
    case Spent(Deleted, _) => ChargedDelete(b)
    case Spent(_, price) => Charged(b, price)
  }

  function NotedSpend(c: Config, p: Phase, spend: Spend): Phase {
    if spend.Spent? then Noted(c, p, spend.kind) else p
  }

  /** The committed edits replayed when the phase is refreshed; a delete catches up only afterwards. */
  function ReplayedBy(c: Config, replayed: nat, spend: Spend): nat {
    if spend.Spent? && spend.kind != Deleted && PendingCommitted(c, replayed) then replayed + 1 else replayed
  }

  function HookedLeaf(c: Config, p: Phase, hadEdits: bool, leaf: Option<Span>): Phase {
    if leaf.Some? then Hooked(c, p, hadEdits, leaf.value.begin, leaf.value.end, leaf.value.hidden) else p
  }

  /** Two budgets that differ at most in the running delete run. */
  predicate SameCharge(a: Budget, b: Budget) {
    a.cost == b.cost && a.count == b.count && a.hadEdits == b.hadEdits && a.overflow == b.overflow
  }

  /** The phase a step refreshes, if it refreshes. */
  ghost function Prepared(c: Config, s: State, step: Step): Phase {
    var spend := SpendOf(c, s, step);
    HookedLeaf(c, NotedSpend(c, s.phase, spend), Paid(s.budget, spend).hadEdits, LeafOf(c, s, step))
  }

  lemma LeafedShape(c: Config, s: State, begin: nat, end: nat, element: Element, hidden: bool)
    requires s.view.Valid()
    ensures var t := Leafed(c, s, begin, end, element, hidden);
            && SameCharge(t.budget, s.budget) && t.script.replayed == s.script.replayed && t.view.cursor == end
            && t.phase == Refreshed(c, Hooked(c, s.phase, s.budget.hadEdits, begin, end, hidden), s.budget, s.script.replayed, end)
  {
    hide Refreshed, Hooked;
  }

  lemma SkippedShape(c: Config, s: State, skipper: Skipper)
    requires s.view.Valid()
    ensures var t := Skipped(c, s, skipper);
            && t.budget == s.budget && t.script.replayed == s.script.replayed
            && t.phase == Refreshed(c, s.phase, s.budget, s.script.replayed, t.view.cursor)
  {
    hide Refreshed;
  }

  lemma DeletedShape(c: Config, s: State, skipper: Skipper)
    requires s.view.Valid()
    ensures var t := DeletedStep(c, s, skipper);
            && SameCharge(t.budget, ChargedDelete(s.budget)) && s.script.replayed <= t.script.replayed
            && t.phase == Refreshed(c, Noted(c, s.phase, Deleted), ChargedDelete(s.budget), s.script.replayed, t.view.cursor)
  {
    hide Refreshed, Noted, Merges;
  }

  lemma BridgedShape(c: Config, s: State, skipper: Skipper)
    ensures var t := BridgedStep(c, s, skipper);
            && t.budget == s.budget && s.script.replayed <= t.script.replayed
            && t.phase == Refreshed(c, s.phase, s.budget, s.script.replayed, t.view.cursor)
  {
    hide Refreshed;
  }

  lemma RefusedShape(c: Config, s: State, step: Step)
    ensures var t := Refused(c, s, step); t.phase == s.phase && t.budget == s.budget && t.script.replayed == s.script.replayed
    ensures step.Finalize? || step.Overflow? ==> Accepts(c, s, step)
  {
    hide KeepsBridge;
  }

  /** What every step's outcome looks like. */
  ghost predicate Shaped(c: Config, s: State, step: Step, t: State) {
    var spend := SpendOf(c, s, step);
    var replayed := ReplayedBy(c, s.script.replayed, spend);
    && SameCharge(t.budget, Paid(s.budget, spend).(overflow := s.budget.overflow || step.Overflow?))
    && replayed <= t.script.replayed
    && t.phase == (if step.Finalize? then Finalized(c, s.phase, s.view.cursor)
                   else if Refreshes(c, s, step) then Refreshed(c, Prepared(c, s, step), Paid(s.budget, spend), replayed, t.view.cursor)
                   else Prepared(c, s, step))
  }

  lemma SimpleShape(c: Config, s: State, step: Step)
    requires Enabled(c, s, step) && Accepts(c, s, step) && !Refreshes(c, s, step)
    ensures Shaped(c, s, step, Next(c, s, step))
  {
    hide Accepts, Finalized, Noted;
  }

  /** Whatever the step, it pays, notes the edit, counts its leaf and refreshes, in this order. */
  lemma NextShape(c: Config, s: State, step: Step)
    requires Enabled(c, s, step)
    ensures Shaped(c, s, step, Next(c, s, step))
  {
    hide Accepts, Refused, Refreshed, Finalized, Noted, Hooked, Skipped, Leafed, DeletedStep, BridgedStep;
    if !Accepts(c, s, step) {
      RefusedShape(c, s, step);
    } else {
      match step
      case Skip(skipper) => SkippedShape(c, s, skipper);
      case Leaf(begin, end, element, hidden) => LeafedShape(c, s, begin, end, element, hidden);
      case InsertGap(position, message, element) =>
        LeafedShape(c, Edited(c, s, Gap(position, message), INSERT_COST), s.view.cursor, position, element, false);
      case Replace(end, element, price, hidden, _) =>
        LeafedShape(c, Edited(c, s, Replacement(s, end, element), price), s.view.cursor, end, element, hidden);
      case Delete(skipper) => DeletedShape(c, s, skipper);
      case ExtendDelete(skipper) => BridgedShape(c, s, skipper);
      case _ => SimpleShape(c, s, step);
    }
  }

  // The window protocol -----------------------------------------------------------

  /** One window, opened and completed at most once; bookkeeping is off only when nothing is left to do. */
  predicate PhaseOk(c: Config, p: Phase, replayed: nat) {
    var r := p.replay;
    && r.completedWindows == (if r.completed then 1 else 0)
    && (r.completed ==> p.window.Some? && !r.inPhase)
    && (r.reachedTarget ==> r.completed)
    && (r.stable ==> r.reachedTarget)
    && (r.awaiting ==> r.reachedTarget && !r.stable)
    && (!r.bookkeeping ==> !r.inPhase && !r.awaiting && !WindowPending(p))
    && (p.window.Some? && r.inPhase ==> !PendingCommitted(c, replayed))
    && (p.window.Some? ==> p.floor == p.window.value.editFloor)
  }

  lemma RefreshKeepsPhase(c: Config, p: Phase, b: Budget, replayed: nat, cursor: nat)
    requires PhaseOk(c, p, replayed)
    ensures PhaseOk(c, Refreshed(c, p, b, replayed, cursor), replayed)
  {
  }

  lemma HookKeepsPhase(c: Config, p: Phase, replayed: nat, hadEdits: bool, begin: nat, end: nat, hidden: bool)
    requires PhaseOk(c, p, replayed)
    ensures PhaseOk(c, Hooked(c, p, hadEdits, begin, end, hidden), replayed)
  {
  }

  /** Using up committed edits only makes fewer of them pending. */
  lemma ReplayKeepsPhase(c: Config, p: Phase, kind: Kind, replayed: nat, replayed': nat)
    requires PhaseOk(c, p, replayed) && replayed <= replayed'
    ensures PhaseOk(c, p, replayed') && PhaseOk(c, Noted(c, p, kind), replayed')
  {
  }

  lemma FinalizeKeepsPhase(c: Config, p: Phase, replayed: nat, cursor: nat)
    requires PhaseOk(c, p, replayed)
    ensures PhaseOk(c, Finalized(c, p, cursor), replayed)
  {
  }

  lemma PreparedIsOk(c: Config, s: State, step: Step)
    requires PhaseOk(c, s.phase, s.script.replayed)
    ensures PhaseOk(c, NotedSpend(c, s.phase, SpendOf(c, s, step)), ReplayedBy(c, s.script.replayed, SpendOf(c, s, step)))
    ensures PhaseOk(c, Prepared(c, s, step), ReplayedBy(c, s.script.replayed, SpendOf(c, s, step)))
  {
    hide PhaseOk, SpendOf, LeafOf, Noted, Hooked, Paid, PendingCommitted;
    var spend := SpendOf(c, s, step);
    var replayed := ReplayedBy(c, s.script.replayed, spend);
    ReplayKeepsPhase(c, s.phase, if spend.Spent? then spend.kind else Deleted, s.script.replayed, replayed);
    var leaf := LeafOf(c, s, step);
    if leaf.Some? {
      HookKeepsPhase(c, NotedSpend(c, s.phase, spend), replayed, Paid(s.budget, spend).hadEdits,
                     leaf.value.begin, leaf.value.end, leaf.value.hidden);
    }
  }

  /** Every step keeps the window protocol. */
  lemma NextKeepsPhase(c: Config, s: State, step: Step)
    requires Enabled(c, s, step) && PhaseOk(c, s.phase, s.script.replayed)
    ensures var t := Next(c, s, step); PhaseOk(c, t.phase, t.script.replayed)
  {
    hide PhaseOk, SpendOf, Prepared, Refreshes, Refreshed, Finalized, Paid, SameCharge, PendingCommitted, Next, Enabled;
    var t := Next(c, s, step);
    var replayed := ReplayedBy(c, s.script.replayed, SpendOf(c, s, step));
    NextShape(c, s, step);
    PreparedIsOk(c, s, step);
    RefreshKeepsPhase(c, Prepared(c, s, step), Paid(s.budget, SpendOf(c, s, step)), replayed, t.view.cursor);
    ReplayKeepsPhase(c, s.phase, Deleted, s.script.replayed, replayed);
    FinalizeKeepsPhase(c, s.phase, replayed, s.view.cursor);
    ReplayKeepsPhase(c, t.phase, Deleted, replayed, t.script.replayed);
  }

  // The window's history ------------------------------------------------------------

  /** What happened to the window on the branch that led here: openings, whether it closed at the end
      of the text, the last edit made inside it, and the visible leaves past its maximum since then. */
  datatype History = History(opens: nat, atEnd: bool, lastEdit: Option<Kind>, forwardAtEdit: nat, leaves: nat, overrun: bool)

  /** The step adds a visible leaf that begins at or past the window's maximum, after some edit. */
  ghost predicate CountsLeaf(c: Config, s: State, step: Step) {
    var leaf := LeafOf(c, s, step);
    && WindowOpen(s.phase) && leaf.Some? && (s.budget.hadEdits || SpendOf(c, s, step).Spent?)
    && !leaf.value.hidden && leaf.value.begin < leaf.value.end && s.phase.window.value.maxCursor <= leaf.value.begin
  }

  /** An edit under lifted limits, or outside any budget, marks the branch as overrun. */
  ghost function Tracked(c: Config, s: State, step: Step, h: History): History
    requires Enabled(c, s, step)
  {
    var t := Next(c, s, step);
    var spend := SpendOf(c, s, step);
    var counted := if CountsLeaf(c, s, step) then 1 else 0;
    var overrun := h.overrun || (spend.Spent? && s.mode.raised);
    if WindowOpen(s.phase) then
      var atEnd := step.Finalize? && t.phase.replay.completed;
      if spend.Spent? then History(h.opens, atEnd, Some(spend.kind), s.phase.replay.forward, counted, overrun)
      else h.(atEnd := atEnd, leaves := h.leaves + counted)
    else if WindowOpen(t.phase) then History(h.opens + 1, false, None, 0, 0, overrun)
    else h.(overrun := overrun)
  }

  /** The leaves that must follow an edit before the window may close. */
  function Following(c: Config, w: EditWindow, kind: Kind): U32 {
    if kind == Inserted then c.stabilityTokens else w.forwardTokens
  }

  function ForwardNeeded(c: Config, w: EditWindow, h: History): nat
    requires h.lastEdit.Some?
  {
    Saturated(h.forwardAtEdit + Following(c, w, h.lastEdit.value))
  }

  /** Opened at most once; and closed, unless by the end of the text, only once enough leaves followed the last edit. */
  predicate HistoryOk(c: Config, p: Phase, h: History) {
    && h.opens == (if WindowOpen(p) || p.replay.completed then 1 else 0)
    && (WindowOpen(p) ==> p.replay.forward == h.forwardAtEdit + h.leaves)
    && (WindowOpen(p) && h.lastEdit.Some? ==> ForwardNeeded(c, p.window.value, h) <= p.window.value.replayTokens)
    && (p.replay.completed && p.window.Some? && !h.atEnd && h.lastEdit.Some? ==>
          ForwardNeeded(c, p.window.value, h) <= h.forwardAtEdit + h.leaves)
  }

  lemma NotingRaisesTheBar(c: Config, p: Phase, kind: Kind)
    ensures var q := Noted(c, p, kind);
            && q.replay == p.replay && q.window.Some? == p.window.Some?
            && (p.window.Some? ==> q.window.value.(replayTokens := p.window.value.replayTokens) == p.window.value
                                   && p.window.value.replayTokens <= q.window.value.replayTokens)
            && (WindowOpen(p) ==> Saturated(p.replay.forward + Following(c, p.window.value, kind)) <= q.window.value.replayTokens)
  {
  }

  lemma HookCountsOne(c: Config, p: Phase, replayed: nat, hadEdits: bool, leaf: Option<Span>)
    requires PhaseOk(c, p, replayed)
    ensures var q := HookedLeaf(c, p, hadEdits, leaf);
            && q.window == p.window && WindowOpen(q) == WindowOpen(p) && q.replay.completed == p.replay.completed
            && (WindowOpen(p) ==>
                  q.replay.forward == p.replay.forward +
                    if leaf.Some? && hadEdits && !leaf.value.hidden && leaf.value.begin < leaf.value.end
                       && p.window.value.maxCursor <= leaf.value.begin then 1 else 0)
  {
  }

  lemma RefreshClosesWhenDue(c: Config, p: Phase, b: Budget, replayed: nat, cursor: nat)
    requires PhaseOk(c, p, replayed)
    ensures var q := Refreshed(c, p, b, replayed, cursor);
            && q.window == p.window
            && (WindowOpen(p) ==> q == p || (q.replay.completed && ForwardBudget(p.window.value) <= p.replay.forward))
            && (!WindowOpen(p) ==> q.replay.completed == p.replay.completed)
            && (!WindowOpen(p) && WindowOpen(q) ==> !p.replay.completed && q.replay.forward == 0)
  {
  }

  lemma FinalizeCloses(c: Config, p: Phase, cursor: nat)
    ensures var q := Finalized(c, p, cursor);
            && q.window == p.window
            && (WindowOpen(p) ==> q == p || q.replay.completed)
            && (!WindowOpen(p) ==> q.replay.completed == p.replay.completed && !WindowOpen(q))
  {
  }

  /** Closing at the end of the text pays for nothing and adds no leaf. */
  lemma StepsAreOneKind(c: Config, s: State, step: Step)
    ensures step.Finalize? || step.Overflow? ==> SpendOf(c, s, step) == Free && LeafOf(c, s, step) == None && !Refreshes(c, s, step)
    ensures var spend := SpendOf(c, s, step);
            spend.Spent? ==> CanAfford(c, s, spend.price) && (spend.kind == Deleted ==> spend.price == DELETE_COST)
  {
    hide CanAfford, CanEditAt, OutsideWindow, CanDelete, ClusterAllowed, AcceptsBridge;
  }

  /** The leaf counts towards the window of `p`. */
  function Counts(p: Phase, hadEdits: bool, leaf: Option<Span>): nat {
    if WindowOpen(p) && leaf.Some? && hadEdits && !leaf.value.hidden && leaf.value.begin < leaf.value.end
       && p.window.value.maxCursor <= leaf.value.begin then 1 else 0
  }

  /** The history once an edit is noted and a leaf counted. */
  function Recorded(p: Phase, spend: Spend, counted: nat, h: History): History {
    if !WindowOpen(p) then h
    else if spend.Spent? then History(h.opens, h.atEnd, Some(spend.kind), p.replay.forward, counted, h.overrun)
    else h.(leaves := h.leaves + counted)
  }

  /** The history once the phase has settled in `q`. */
  function Followed(p: Phase, q: Phase, atEnd: bool, h: History): History {
    if WindowOpen(p) then h.(atEnd := atEnd)
    else if WindowOpen(q) then History(h.opens + 1, false, None, 0, 0, h.overrun)
    else h
  }

  lemma CountingKeepsHistory(c: Config, p: Phase, spend: Spend, hadEdits: bool, leaf: Option<Span>, replayed: nat, h: History)
    requires HistoryOk(c, p, h) && PhaseOk(c, NotedSpend(c, p, spend), replayed)
    ensures var q := HookedLeaf(c, NotedSpend(c, p, spend), hadEdits, leaf);
            WindowOpen(q) == WindowOpen(p) && HistoryOk(c, q, Recorded(p, spend, Counts(p, hadEdits, leaf), h))
  {
    hide Noted, HookedLeaf, PhaseOk;
    if spend.Spent? {
      NotingRaisesTheBar(c, p, spend.kind);
    }
    HookCountsOne(c, NotedSpend(c, p, spend), replayed, hadEdits, leaf);
  }

  lemma RefreshKeepsHistory(c: Config, p: Phase, b: Budget, replayed: nat, cursor: nat, h: History)
    requires PhaseOk(c, p, replayed) && HistoryOk(c, p, h)
    ensures var q := Refreshed(c, p, b, replayed, cursor); HistoryOk(c, q, Followed(p, q, false, h))
    ensures HistoryOk(c, p, Followed(p, p, false, h))
  {
    hide Refreshed, PhaseOk, Following;
    RefreshClosesWhenDue(c, p, b, replayed, cursor);
  }

  lemma FinalizeKeepsHistory(c: Config, p: Phase, cursor: nat, h: History)
    requires HistoryOk(c, p, h)
    ensures var q := Finalized(c, p, cursor); HistoryOk(c, q, Followed(p, q, q.replay.completed, h))
  {
    hide Finalized, Following;
    FinalizeCloses(c, p, cursor);
  }

  lemma TrackedInSteps(c: Config, s: State, step: Step, h: History)
    requires Enabled(c, s, step)
    requires WindowOpen(Prepared(c, s, step)) == WindowOpen(s.phase)
    ensures var t := Next(c, s, step).phase;
            var spend := SpendOf(c, s, step);
            var recorded := Recorded(s.phase, spend, Counts(s.phase, Paid(s.budget, spend).hadEdits, LeafOf(c, s, step)), h);
            Tracked(c, s, step, h) ==
            Followed(Prepared(c, s, step), t, step.Finalize? && t.replay.completed, recorded).(overrun := Tracked(c, s, step, h).overrun)
  {
    StepsAreOneKind(c, s, step);
    hide Enabled, Next, SpendOf, LeafOf, Prepared, WindowOpen;
  }

  lemma NothingToRecord(c: Config, s: State, step: Step, h: History)
    requires step.Finalize?
    ensures Prepared(c, s, step) == s.phase
    ensures var spend := SpendOf(c, s, step);
            Recorded(s.phase, spend, Counts(s.phase, Paid(s.budget, spend).hadEdits, LeafOf(c, s, step)), h) == h
  {
  }

  lemma OverrunIsKeptApart(c: Config, p: Phase, h: History, overrun: bool)
    requires HistoryOk(c, p, h)
    ensures HistoryOk(c, p, h.(overrun := overrun))
  {
  }

  /** Every step keeps the history true. */
  lemma NextKeepsHistory(c: Config, s: State, step: Step, h: History)
    requires Enabled(c, s, step) && PhaseOk(c, s.phase, s.script.replayed) && HistoryOk(c, s.phase, h)
    ensures HistoryOk(c, Next(c, s, step).phase, Tracked(c, s, step, h))
  {
    hide Enabled, Next, SpendOf, LeafOf, Refreshes, NotedSpend, HookedLeaf, Refreshed, Finalized, ReplayedBy, PhaseOk, SameCharge, Paid,
         Tracked, Followed, WindowOpen, Recorded, Counts, HistoryOk;
    var spend, leaf := SpendOf(c, s, step), LeafOf(c, s, step);
    var hadEdits := Paid(s.budget, spend).hadEdits;
    var replayed := ReplayedBy(c, s.script.replayed, spend);
    var recorded := Recorded(s.phase, spend, Counts(s.phase, hadEdits, leaf), h);
    var t := Next(c, s, step);
    PreparedIsOk(c, s, step);
    CountingKeepsHistory(c, s.phase, spend, hadEdits, leaf, replayed, h);
    TrackedInSteps(c, s, step, h);
    NextShape(c, s, step);
    if step.Finalize? {
      NothingToRecord(c, s, step, h);
      FinalizeKeepsHistory(c, s.phase, s.view.cursor, h);
    }
    RefreshKeepsHistory(c, Prepared(c, s, step), Paid(s.budget, spend), replayed, t.view.cursor, recorded);
    OverrunIsKeptApart(c, t.phase, Followed(Prepared(c, s, step), t.phase, step.Finalize? && t.phase.replay.completed, recorded),
                       Tracked(c, s, step, h).overrun);
  }

  // The budget ----------------------------------------------------------------------

  predicate Within(count: U32, cost: U32, c: Config) {
    count <= c.maxEdits && cost <= c.maxCost
  }

  /** Charges since the window opened stay within the limits, and so do those before it; so the total is within twice. */
  predicate BudgetOk(c: Config, p: Phase, b: Budget, overrun: bool) {
    !b.overflow && !overrun ==>
      && b.count <= 2 * c.maxEdits && b.cost <= 2 * c.maxCost
      && (!WindowOpen(p) && !p.replay.completed ==> Within(b.count, b.cost, c))
      && (WindowOpen(p) ==>
            && Within(p.replay.countBase, p.replay.costBase, c)
            && Within(Sub32(b.count, p.replay.countBase), Sub32(b.cost, p.replay.costBase), c))
  }

  /** Counters wrap at 32 bits, and the limits hold all the same. */
  lemma PayingKeepsBudget(c: Config, s: State, spend: Spend, overrun: bool)
    requires BudgetOk(c, s.phase, s.budget, overrun)
    requires spend.Spent? ==> CanAfford(c, s, spend.price) && (spend.kind == Deleted ==> spend.price == DELETE_COST)
    ensures BudgetOk(c, s.phase, Paid(s.budget, spend), overrun || (spend.Spent? && s.mode.raised))
  {
  }

  lemma SameChargeSameBudget(c: Config, p: Phase, a: Budget, b: Budget, overrun: bool)
    requires BudgetOk(c, p, a, overrun) && a.cost == b.cost && a.count == b.count && (a.overflow ==> b.overflow)
    ensures BudgetOk(c, p, b, overrun)
  {
  }

  /** Two phases the budget cannot tell apart. */
  predicate SameBase(p: Phase, q: Phase) {
    && WindowOpen(p) == WindowOpen(q) && p.replay.completed == q.replay.completed
    && p.replay.countBase == q.replay.countBase && p.replay.costBase == q.replay.costBase
  }

  lemma SameBaseSameBudget(c: Config, p: Phase, q: Phase, b: Budget, overrun: bool)
    requires BudgetOk(c, p, b, overrun) && SameBase(p, q)
    ensures BudgetOk(c, q, b, overrun)
  {
  }

  lemma PreparingKeepsBase(c: Config, s: State, step: Step)
    ensures SameBase(s.phase, Prepared(c, s, step))
  {
    hide SpendOf, LeafOf, Paid;
  }

  lemma RefreshKeepsBudget(c: Config, p: Phase, b: Budget, replayed: nat, cursor: nat, overrun: bool)
    requires PhaseOk(c, p, replayed) && BudgetOk(c, p, b, overrun)
    ensures BudgetOk(c, Refreshed(c, p, b, replayed, cursor), b, overrun)
  {
  }

  lemma FinalizeKeepsBudget(c: Config, p: Phase, b: Budget, cursor: nat, overrun: bool)
    requires BudgetOk(c, p, b, overrun)
    ensures BudgetOk(c, Finalized(c, p, cursor), b, overrun)
  {
  }

  lemma PayingSetsNoFlag(b: Budget, spend: Spend)
    ensures (spend == Free ==> Paid(b, spend) == b) && Paid(b, spend).overflow == b.overflow
  {
  }

  /** Every step keeps the budget. */
  lemma NextKeepsBudget(c: Config, s: State, step: Step, h: History)
    requires Enabled(c, s, step) && PhaseOk(c, s.phase, s.script.replayed) && BudgetOk(c, s.phase, s.budget, h.overrun)
    ensures var t := Next(c, s, step); BudgetOk(c, t.phase, t.budget, Tracked(c, s, step, h).overrun)
  {
    var spend := SpendOf(c, s, step);
    PayingSetsNoFlag(s.budget, spend);
    hide Enabled, Next, SpendOf, LeafOf, Refreshes, Refreshed, Prepared;
    hide ReplayedBy, PhaseOk, BudgetOk, CountsLeaf, CanAfford, Paid, WindowOpen;
    var t := Next(c, s, step);
    var replayed := ReplayedBy(c, s.script.replayed, spend);
    var overrun := Tracked(c, s, step, h).overrun;
    NextShape(c, s, step);
    StepsAreOneKind(c, s, step);
    PayingKeepsBudget(c, s, spend, h.overrun);
    PreparingKeepsBase(c, s, step);
    PreparedIsOk(c, s, step);
    var p := Prepared(c, s, step);
    SameBaseSameBudget(c, s.phase, p, Paid(s.budget, spend), overrun);
    RefreshKeepsBudget(c, p, Paid(s.budget, spend), replayed, t.view.cursor, overrun);
    if step.Finalize? {
      FinalizeKeepsBudget(c, s.phase, s.budget, s.view.cursor, overrun);
    }
    assert BudgetOk(c, t.phase, Paid(s.budget, spend), overrun);
    SameChargeSameBudget(c, t.phase, Paid(s.budget, spend), t.budget, overrun);
  }
}
