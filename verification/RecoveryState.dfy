/** What one step of a recovery attempt does, as functions on the recovery state.

    A step is one call of the recovery context.  The context edits the text on the fly: it
    inserts, replaces and deletes under a budget, only inside an edit window, and it first
    replays the edits an earlier window committed. */
module RecoveryState {
  import opened Extremes
  import opened Options
  import opened StrictContext

  const MAX: nat := 0xFFFF_FFFF

  /** An unsigned 32-bit counter. */
  type U32 = x: nat | x <= MAX

  function Add32(a: U32, b: U32): U32 {
    if a + b <= MAX then a + b else a + b - MAX - 1
  }

  function Sub32(a: U32, b: U32): U32 {
    if b <= a then a - b else a + MAX + 1 - b
  }

  function Saturated(n: nat): U32 { if n < MAX then n else MAX }

  datatype Kind = Inserted | Deleted | Replaced | Incomplete | Recovered | ConversionError

  datatype Edit = Edit(kind: Kind, begin: nat, end: nat, element: Option<Element>, message: string)

  datatype Budget = Budget(consecutiveDeletes: U32, cost: U32, count: U32, hadEdits: bool, overflow: bool)

  datatype Replay = Replay(costBase: U32, countBase: U32, forward: nat, strict: nat, completedWindows: nat,
                           inPhase: bool, reachedTarget: bool, stable: bool, awaiting: bool, bookkeeping: bool, completed: bool)

  datatype EditWindow = EditWindow(begin: nat, editFloor: nat, maxCursor: nat, forwardTokens: U32, replayTokens: U32)

  /** Hidden trivia stepped over right after a delete, which a further delete joins to it. */
  datatype Bridge = Bridge(begin: nat, end: nat)

  /** Switches that scoped guards of the callers flip; `raised` lifts every limit during a long delete scan. */
  datatype Mode = Mode(allowInsert: bool, allowDelete: bool, track: bool, skipAfterDelete: bool, destructive: bool, raised: bool)

  datatype LiteralText = LiteralText(value: string, caseSensitive: bool)

  /** What stays fixed during one attempt: the text, the grammar's literals, the limits, the committed edits. */
  datatype Config = Config(
    size: nat, width: nat -> nat, nul: nat -> bool, literal: Element -> Option<LiteralText>,
    stabilityTokens: U32, maxEdits: U32, maxCost: U32, maxDeletes: U32, forbidFold: bool,
    committed: seq<Edit>, resumeFloor: nat)
  {
    /** A codepoint ends inside the text. */
    ghost predicate Valid() {
      && size <= MAX
      && forall p: nat :: p < size ==> p + width(p) <= size
    }
  }

  /** Where the attempt stands in the protocol of its edit window. */
  datatype Phase = Phase(replay: Replay, window: Option<EditWindow>, floor: nat)

  /** The edits made so far, how many committed ones they replay, and a delete that may yet grow. */
  datatype Script = Script(edits: seq<Edit>, replayed: nat, bridge: Option<Bridge>)

  datatype State = State(view: View, furthest: nat, phase: Phase, budget: Budget, script: Script, blocked: bool, mode: Mode)

  // Queries ---------------------------------------------------------------------

  predicate WindowPending(p: Phase) {
    p.window.Some? && !p.replay.completed
  }

  /** A window is open: its edits are charged to the window's own budget. */
  predicate WindowOpen(p: Phase) {
    p.replay.inPhase && WindowPending(p)
  }

  predicate PendingCommitted(c: Config, replayed: nat) {
    replayed < |c.committed|
  }

  /** Two grammar elements count as the same on replay: one object, or literals of equal text and case rule. */
  predicate Equivalent(c: Config, a: Option<Element>, b: Option<Element>) {
    a == b || (a.Some? && b.Some? && c.literal(a.value).Some? && c.literal(a.value) == c.literal(b.value))
  }

  predicate MatchesInsert(c: Config, replayed: nat, offset: nat, element: Option<Element>, message: string) {
    && PendingCommitted(c, replayed)
    && var e := c.committed[replayed];
       e.kind == Inserted && e.begin == offset == e.end && Equivalent(c, e.element, element) && e.message == message
  }

  predicate MatchesReplace(c: Config, replayed: nat, begin: nat, end: nat, element: Option<Element>) {
    && PendingCommitted(c, replayed)
    && var e := c.committed[replayed];
       e.kind == Replaced && e.begin == begin && e.end == end && Equivalent(c, e.element, element)
  }

  predicate MatchesDelete(c: Config, replayed: nat, offset: nat) {
    && PendingCommitted(c, replayed)
    && var e := c.committed[replayed];
       e.kind == Deleted && e.begin <= offset < e.end
  }

  predicate CanReplayAt(c: Config, replayed: nat, offset: nat) {
    && PendingCommitted(c, replayed)
    && var e := c.committed[replayed];
       match e.kind
       case Inserted => e.begin == offset == e.end
       case Deleted => offset < e.end
       case Replaced => e.begin <= offset <= e.end
       case _ => false
  }

  /** The last edit is an insertion right at the cursor. */
  predicate ContinuesCluster(s: State) {
    s.script.edits != [] && var last := s.script.edits[|s.script.edits| - 1]; last.begin == s.view.cursor == last.end
  }

  /** A window that is done may still let edits through, if the caller opened the door. */
  predicate ContinuationAllowed(s: State) {
    s.mode.destructive && s.budget.hadEdits && s.phase.replay.completed
  }

  predicate ClusterAllowed(c: Config, s: State) {
    && s.phase.window.Some? && s.budget.hadEdits && s.phase.replay.completed && !PendingCommitted(c, s.script.replayed)
    && s.phase.window.value.editFloor <= s.view.cursor && ContinuesCluster(s)
  }

  predicate CanEditAt(c: Config, s: State, offset: nat) {
    if PendingCommitted(c, s.script.replayed) then CanReplayAt(c, s.script.replayed, offset)
    else if s.phase.window.None? then s.phase.replay.inPhase && s.phase.floor <= offset
    else (WindowPending(s.phase) || ContinuationAllowed(s)) && s.phase.window.value.editFloor <= offset
  }

  predicate OutsideWindow(s: State, hatch: bool) {
    && WindowOpen(s.phase) && s.phase.window.value.maxCursor < s.view.cursor && s.budget.hadEdits
    && !s.mode.destructive && !ContinuesCluster(s) && hatch
  }

  predicate CanDelete(c: Config, s: State) {
    && s.view.cursor < c.size
    && (|| MatchesDelete(c, s.script.replayed, s.view.cursor)
        || (&& s.mode.allowDelete && CanEditAt(c, s, s.view.cursor)
            && s.budget.consecutiveDeletes < (if s.mode.raised then MAX else c.maxDeletes)
            && !c.nul(s.view.cursor)))
  }

  predicate Affords(count: U32, cost: U32, maxEdits: U32, maxCost: U32, price: U32) {
    count < maxEdits && Add32(cost, price) <= maxCost
  }

  function EditLimit(c: Config, mode: Mode): U32 { if mode.raised then MAX else c.maxEdits }
  function CostLimit(c: Config, mode: Mode): U32 { if mode.raised then MAX else c.maxCost }

  predicate CanAfford(c: Config, s: State, price: U32) {
    || s.budget.overflow
    || (if WindowOpen(s.phase) then
          Affords(Sub32(s.budget.count, s.phase.replay.countBase), Sub32(s.budget.cost, s.phase.replay.costBase),
                  EditLimit(c, s.mode), CostLimit(c, s.mode), price)
        else
          Affords(s.budget.count, s.budget.cost, EditLimit(c, s.mode), CostLimit(c, s.mode), price))
  }

  const INSERT_COST: U32 := 1
  const DELETE_COST: U32 := 4
  const WORD_LENGTH_FLOOR: nat := 3

  // Phases ----------------------------------------------------------------------

  function ForwardBudget(w: EditWindow): nat { Max(w.forwardTokens, w.replayTokens) }

  /** Bookkeeping goes off once no window is open or pending and no stability is awaited. */
  function Quiesced(p: Phase): Phase {
    if p.replay.inPhase || p.replay.awaiting || WindowPending(p) then p
    else p.(replay := p.replay.(bookkeeping := false))
  }

  function Stabilized(p: Phase): Phase {
    Quiesced(p.(replay := p.replay.(stable := true, awaiting := false)))
  }

  function Opened(p: Phase, b: Budget): Phase
    requires p.window.Some?
  {
    Phase(p.replay.(bookkeeping := true, inPhase := true, costBase := b.cost, countBase := b.count,
                    forward := 0, strict := 0, reachedTarget := false, stable := false, awaiting := false),
          p.window, p.window.value.editFloor)
  }

  function Completed(p: Phase, atEnd: bool): Phase
    requires p.window.Some?
  {
    var reached := atEnd || p.replay.forward >= ForwardBudget(p.window.value);
    Quiesced(p.(replay := p.replay.(completedWindows := p.replay.completedWindows + 1, reachedTarget := reached, stable := atEnd,
                                    awaiting := reached && !atEnd, strict := 0, forward := 0, inPhase := false, completed := true)))
  }

  function WindowBegin(c: Config, w: EditWindow): nat {
    Max(w.begin, c.resumeFloor)
  }

  /** Closes the open window, or opens the pending one, when its time has come. */
  function Settled(c: Config, p: Phase, b: Budget, replayed: nat, cursor: nat): Phase {
    if p.window.None? then p
    else if p.replay.completed then p.(replay := p.replay.(inPhase := false))
    else if p.replay.inPhase then
      if p.replay.forward >= ForwardBudget(p.window.value) then Completed(p, false) else p
    else if PendingCommitted(c, replayed) || cursor < WindowBegin(c, p.window.value) then p
    else Opened(p, b)
  }

  /** The slow path: what a refresh does whether or not bookkeeping is on. */
  function RefreshedSlow(c: Config, p: Phase, b: Budget, replayed: nat, cursor: nat): Phase {
    Settled(c, if p.replay.awaiting && cursor == c.size then Stabilized(p) else p, b, replayed, cursor)
  }

  function Refreshed(c: Config, p: Phase, b: Budget, replayed: nat, cursor: nat): Phase {
    if p.replay.bookkeeping then RefreshedSlow(c, p, b, replayed, cursor) else p
  }

  /** What a visible, non-empty leaf counts for. */
  function Counted(c: Config, p: Phase, hadEdits: bool, begin: nat): Phase {
    if p.replay.inPhase then
      if hadEdits && WindowPending(p) && begin >= p.window.value.maxCursor
      then p.(replay := p.replay.(forward := p.replay.forward + 1))
      else p
    else if p.replay.awaiting then
      var q := p.(replay := p.replay.(strict := p.replay.strict + 1));
      if q.replay.strict >= c.stabilityTokens then Stabilized(q) else q
    else p
  }

  /** The hook a leaf runs, when bookkeeping is on. */
  function Hooked(c: Config, p: Phase, hadEdits: bool, begin: nat, end: nat, hidden: bool): Phase {
    if p.replay.bookkeeping && !hidden && begin < end then Counted(c, p, hadEdits, begin) else p
  }

  /** An edit inside an open window pushes the window's completion further out. */
  function Noted(c: Config, p: Phase, kind: Kind): Phase {
    if !WindowOpen(p) then p
    else
      var base := if kind == Inserted then c.stabilityTokens else p.window.value.forwardTokens;
      var next := Saturated(p.replay.forward + base);
      if next <= p.window.value.replayTokens then p
      else p.(window := Some(p.window.value.(replayTokens := next)))
  }

  function Finalized(c: Config, p: Phase, cursor: nat): Phase {
    if cursor != c.size then p
    else if WindowOpen(p) then Completed(p, true)
    else if p.replay.awaiting then Stabilized(p)
    else p
  }

  // Budget ----------------------------------------------------------------------

  function Charged(b: Budget, price: U32): Budget {
    b.(cost := Add32(b.cost, price), count := Add32(b.count, 1), hadEdits := true, consecutiveDeletes := 0)
  }

  /** Only the first delete of a run counts as an edit; each one costs. */
  function ChargedDelete(b: Budget): Budget {
    b.(cost := Add32(b.cost, DELETE_COST), count := if b.consecutiveDeletes == 0 then Add32(b.count, 1) else b.count,
       hadEdits := true, consecutiveDeletes := Add32(b.consecutiveDeletes, 1))
  }

  /** A delete run ends at the next leaf or closed node. */
  function RunEnded(b: Budget, mode: Mode): Budget {
    if mode.track then b.(consecutiveDeletes := 0) else b
  }

  // Script ----------------------------------------------------------------------

  function Unbridged(s: State): State { s.(script := s.script.(bridge := None)) }

  /** One more entry; it replays the next committed edit if one is pending. */
  function Appended(c: Config, r: Script, e: Edit): Script {
    Script(r.edits + [e], if PendingCommitted(c, r.replayed) then r.replayed + 1 else r.replayed, None)
  }

  /** A delete at the cursor continues the last one across the trivia bridged since. */
  predicate Merges(r: Script, cursor: nat) {
    && r.bridge.Some? && r.bridge.value.end == cursor && r.edits != []
    && var last := r.edits[|r.edits| - 1]; last.kind == Deleted && last.end == r.bridge.value.begin
  }

  function WithDelete(r: Script, cursor: nat, end: nat): Script {
    if Merges(r, cursor) then
      var k := |r.edits| - 1; Script(r.edits[k := r.edits[k].(end := end)], r.replayed, None)
    else Script(r.edits + [Edit(Deleted, cursor, end, None, "")], r.replayed, None)
  }

  /** A committed delete is used up once the cursor has passed it. */
  function DeleteReplayed(c: Config, r: Script, cursor: nat): Script {
    if PendingCommitted(c, r.replayed) && c.committed[r.replayed].kind == Deleted && c.committed[r.replayed].end <= cursor
    then r.(replayed := r.replayed + 1)
    else r
  }

  // Movement --------------------------------------------------------------------

  /** The phase refreshed to the current cursor, budget and replay position. */
  function Settle(c: Config, s: State): State {
    s.(phase := Refreshed(c, s.phase, s.budget, s.script.replayed, s.view.cursor))
  }

  function MovedTo(s: State, cursor: nat): State {
    s.(view := s.view.(cursor := cursor), furthest := Max(s.furthest, cursor))
  }

  ghost function SkippedView(v: View, skipper: Skipper): View
    requires v.Valid()
  {
    v.Append(skipper.trivia(v.cursor), skipper.next(v.cursor), v.lastVisible)
  }

  function AfterSkip(c: Config, s: State): State { Settle(c, Unbridged(s)) }

  ghost function Skipped(c: Config, s: State, skipper: Skipper): State
    requires s.view.Valid()
  {
    AfterSkip(c, s.(view := SkippedView(s.view, skipper), furthest := Max(s.furthest, skipper.next(s.view.cursor))))
  }

  ghost function LeafedView(v: View, begin: nat, end: nat, element: Element, hidden: bool): View
    requires v.Valid()
  {
    v.Append([StrictContext.Leaf(element, begin, end, hidden)], end, if hidden then v.lastVisible else end)
  }

  function AfterLeaf(c: Config, s: State, begin: nat, end: nat, hidden: bool): State {
    var t := Settle(c, Unbridged(s).(phase := Hooked(c, s.phase, s.budget.hadEdits, begin, end, hidden)));
    t.(budget := RunEnded(t.budget, t.mode))
  }

  ghost function Leafed(c: Config, s: State, begin: nat, end: nat, element: Element, hidden: bool): State
    requires s.view.Valid()
  {
    AfterLeaf(c, s.(view := LeafedView(s.view, begin, end, element, hidden), furthest := Max(s.furthest, end)), begin, end, hidden)
  }

  // Edits -----------------------------------------------------------------------

  /** An accepted insertion or replacement. */
  function Edited(c: Config, s: State, e: Edit, price: U32): State {
    s.(script := Appended(c, s.script, e), budget := Charged(s.budget, price), phase := Noted(c, s.phase, e.kind))
  }

  predicate AcceptsInsert(c: Config, s: State, element: Element) {
    && s.mode.track && s.mode.allowInsert
    && (PendingCommitted(c, s.script.replayed) ==> MatchesInsert(c, s.script.replayed, s.view.cursor, Some(element), ""))
    && (CanEditAt(c, s, s.view.cursor) || ClusterAllowed(c, s))
    && CanAfford(c, s, INSERT_COST)
  }

  function Insertion(s: State, element: Element): Edit {
    Edit(Inserted, s.view.cursor, s.view.cursor, Some(element), "")
  }

  predicate AcceptsGap(c: Config, s: State, position: nat, message: string) {
    && s.mode.track && s.mode.allowInsert && position <= c.size
    && (PendingCommitted(c, s.script.replayed) ==> MatchesInsert(c, s.script.replayed, position, None, message))
    && CanEditAt(c, s, position)
    && CanAfford(c, s, INSERT_COST)
  }

  function Gap(position: nat, message: string): Edit {
    Edit(Inserted, position, position, None, message)
  }

  /** A word keyword that is one typing slip away may be replaced even past the window. */
  predicate WordKeyword(c: Config, element: Element, distance: U32) {
    !c.forbidFold && c.literal(element).Some? && |c.literal(element).value.value| >= WORD_LENGTH_FLOOR && distance == 1
  }

  predicate AcceptsReplace(c: Config, s: State, end: nat, element: Element, price: U32, distance: U32) {
    && s.mode.track && s.view.cursor < end <= c.size
    && (PendingCommitted(c, s.script.replayed) ==> MatchesReplace(c, s.script.replayed, s.view.cursor, end, Some(element)))
    && CanEditAt(c, s, s.view.cursor) && CanEditAt(c, s, end)
    && !OutsideWindow(s, !WordKeyword(c, element, distance))
    && CanAfford(c, s, price)
  }

  function Replacement(s: State, end: nat, element: Element): Edit {
    Edit(Replaced, s.view.cursor, end, Some(element), "")
  }

  predicate AcceptsDelete(c: Config, s: State) {
    && s.mode.track && s.view.cursor < c.size
    && (PendingCommitted(c, s.script.replayed) ==> MatchesDelete(c, s.script.replayed, s.view.cursor))
    && CanDelete(c, s)
    && !OutsideWindow(s, s.budget.consecutiveDeletes == 0)
    && CanAfford(c, s, DELETE_COST)
    && c.width(s.view.cursor) > 0
  }

  /** The state right after an accepted delete took its codepoint, before trivia is skipped. */
  function Erased(c: Config, s: State): State {
    var end := s.view.cursor + c.width(s.view.cursor);
    MovedTo(s.(script := WithDelete(s.script, s.view.cursor, end), budget := ChargedDelete(s.budget), phase := Noted(c, s.phase, Deleted)), end)
  }

  /** A replayed delete may have used up the committed one. */
  function Advanced(c: Config, s: State, replaying: bool): State {
    if replaying then s.(script := DeleteReplayed(c, s.script, s.view.cursor)) else s
  }

  predicate AcceptsBridge(c: Config, s: State, skipper: Skipper) {
    var r := s.script;
    && s.mode.track && r.edits != [] && s.view.cursor < c.size
    && (PendingCommitted(c, r.replayed) ==> MatchesDelete(c, r.replayed, s.view.cursor))
    && var last := r.edits[|r.edits| - 1];
       && last.kind == Deleted && last.end == s.view.cursor < skipper.next(s.view.cursor) < c.size
       && (PendingCommitted(c, r.replayed) ==> skipper.next(s.view.cursor) <= c.committed[r.replayed].end)
  }

  // Steps -----------------------------------------------------------------------

  datatype Step =
    | Skip(skipper: Skipper)
    | Leaf(begin: nat, end: nat, element: Element, hidden: bool)
    | Insert(element: Element)
    | InsertGap(position: nat, message: string, element: Element)
    | Replace(end: nat, element: Element, price: U32, hidden: bool, distance: U32)
    | Delete(skipper: Skipper)
    | ExtendDelete(skipper: Skipper)
    | Enter
    | Exit(begin: nat, element: Element)
    | RelabelChild(child: nat, element: Element)
    | Finalize
    | Overflow
    | Block(blocked: bool)
    | ChangeMode(mode: Mode)

  /** What callers guarantee: nodes are closed that were opened, leaves and skips go forward. */
  ghost predicate Enabled(c: Config, s: State, step: Step) {
    && s.view.Valid() && s.view.cursor <= c.size
    && match step
       case Skip(skipper) => skipper.Valid(c.size)
       case Leaf(begin, end, _, _) => begin <= end && s.view.cursor <= end <= c.size
       case InsertGap(position, _, _) => s.view.cursor <= position
       case Delete(skipper) => skipper.Valid(c.size)
       case ExtendDelete(skipper) => skipper.Valid(c.size)
       case Exit(_, _) => |s.view.frames| >= 2
       case RelabelChild(child, _) => child < |s.view.Top()|
       case _ => true
  }

  ghost predicate Accepts(c: Config, s: State, step: Step) {
    match step
    case Insert(element) => AcceptsInsert(c, s, element)
    case InsertGap(position, message, _) => AcceptsGap(c, s, position, message)
    case Replace(end, element, price, _, distance) => AcceptsReplace(c, s, end, element, price, distance)
    case Delete(_) => AcceptsDelete(c, s)
    case ExtendDelete(skipper) => AcceptsBridge(c, s, skipper)
    case _ => true
  }

  /** A refused edit may still drop the bridge; the early refusals keep it. */
  predicate KeepsBridge(c: Config, s: State, step: Step) {
    var r := s.script.replayed;
    match step
    case Insert(element) => !s.mode.track || (PendingCommitted(c, r) && !MatchesInsert(c, r, s.view.cursor, Some(element), ""))
    case InsertGap(position, message, _) =>
      !s.mode.track || position > c.size || (PendingCommitted(c, r) && !MatchesInsert(c, r, position, None, message))
    case Replace(_, _, _, _, _) => !s.mode.track
    case Delete(_) => !s.mode.track
    case ExtendDelete(_) =>
      !s.mode.track || s.script.edits == [] || s.view.cursor >= c.size || (PendingCommitted(c, r) && !MatchesDelete(c, r, s.view.cursor))
    case _ => true
  }

  function Refused(c: Config, s: State, step: Step): State {
    if KeepsBridge(c, s, step) then s else Unbridged(s)
  }

  ghost function DeletedStep(c: Config, s: State, skipper: Skipper): State
    requires s.view.Valid()
  {
    var t := Erased(c, s);
    Advanced(c, if s.mode.skipAfterDelete then Skipped(c, t, skipper) else Settle(c, t), PendingCommitted(c, s.script.replayed))
  }

  /** The state right after a bridge was laid over trivia. */
  function BridgedTo(s: State, end: nat): State {
    MovedTo(s.(script := s.script.(bridge := Some(Bridge(s.view.cursor, end)))), end)
  }

  function BridgedStep(c: Config, s: State, skipper: Skipper): State {
    Advanced(c, Settle(c, BridgedTo(s, skipper.next(s.view.cursor))), PendingCommitted(c, s.script.replayed))
  }

  ghost function Closed(v: View, begin: nat, element: Element): View
    requires |v.frames| >= 2
  {
    var parent := |v.frames| - 2;
    v.(frames := v.frames[..parent] + [v.frames[parent] + [StrictContext.Node(element, begin, v.lastVisible, v.frames[parent + 1])]])
  }

  /** A child of the open node now belongs to `element`. */
  ghost function Relabelled(v: View, child: nat, element: Element): View
    requires v.Valid() && child < |v.Top()|
  {
    v.(frames := v.frames[v.Depth() := v.Top()[child := Relabel(v.Top()[child], element)]])
  }

  ghost function Exited(s: State, begin: nat, element: Element): State
    requires |s.view.frames| >= 2
  {
    s.(view := Closed(s.view, begin, element), budget := RunEnded(s.budget, s.mode))
  }

  ghost function Next(c: Config, s: State, step: Step): State
    requires Enabled(c, s, step)
  {
    if !Accepts(c, s, step) then Refused(c, s, step)
    else
      match step
      case Skip(skipper) => Skipped(c, s, skipper)
      case Leaf(begin, end, element, hidden) => Leafed(c, s, begin, end, element, hidden)
      case Insert(element) => Edited(c, s, Insertion(s, element), INSERT_COST)
      case InsertGap(position, message, element) =>
        Leafed(c, Edited(c, s, Gap(position, message), INSERT_COST), s.view.cursor, position, element, false)
      case Replace(end, element, price, hidden, _) =>
        Leafed(c, Edited(c, s, Replacement(s, end, element), price), s.view.cursor, end, element, hidden)
      case Delete(skipper) => DeletedStep(c, s, skipper)
      case ExtendDelete(skipper) => BridgedStep(c, s, skipper)
      case Enter => s.(view := s.view.Opened())
      case Exit(begin, element) => Exited(s, begin, element)
      case RelabelChild(child, element) => s.(view := Relabelled(s.view, child, element))
      case Finalize => s.(phase := Finalized(c, s.phase, s.view.cursor))
      case Overflow => s.(budget := s.budget.(overflow := true))
      case Block(blocked) => s.(blocked := blocked)
      case ChangeMode(mode) => s.(mode := mode)
  }

  // Attempts --------------------------------------------------------------------

  const NEW_REPLAY := Replay(0, 0, 0, 0, 0, true, false, false, false, true, false)

  /** A fresh context, before any window is set. */
  function Fresh(mode: Mode): State {
    State(View(0, 0, [[]]), 0, Phase(NEW_REPLAY, None, 0), Budget(0, 0, 0, false, false), Script([], 0, None), false, mode)
  }

  function WindowSet(window: Option<EditWindow>, b: Budget): Phase {
    Phase(NEW_REPLAY.(costBase := b.cost, countBase := b.count, inPhase := false, bookkeeping := window.Some?), window,
          if window.Some? then window.value.editFloor else 0)
  }

  /** The state after the driver has set the edit window. */
  function Windowed(s: State, window: Option<EditWindow>): State {
    Unbridged(s).(phase := WindowSet(window, s.budget))
  }

  // Marks -----------------------------------------------------------------------

  datatype Mark = Mark(
    view: Checkpoint, budget: Budget, replay: Replay, blocked: bool, editCount: nat, replayed: nat,
    replayTokens: U32, bridge: Option<Bridge>)

  function Tokens(window: Option<EditWindow>): U32 {
    if window.Some? then window.value.replayTokens else 0
  }

  ghost function MarkedAt(s: State): Mark
    requires s.view.Valid()
  {
    Mark(MarkOf(s.view), s.budget, s.phase.replay, s.blocked, |s.script.edits|, s.script.replayed, Tokens(s.phase.window), s.script.bridge)
  }

  ghost predicate CanRewind(s: State, m: Mark) {
    m.view.depth < |s.view.frames| && m.view.count <= |s.view.frames[m.view.depth]| && m.editCount <= |s.script.edits|
  }

  ghost function RewoundView(v: View, m: Checkpoint): View
    requires m.depth < |v.frames| && m.count <= |v.frames[m.depth]|
  {
    View(m.cursor, m.lastVisible, v.frames[..m.depth] + [v.frames[m.depth][..m.count]])
  }

  /** Going back to a mark truncates the tree and the script, and keeps what a mark does not record. */
  ghost function Rewound(s: State, m: Mark): State
    requires CanRewind(s, m)
  {
    var window := if s.phase.window.Some? then Some(s.phase.window.value.(replayTokens := m.replayTokens)) else None;
    State(RewoundView(s.view, m.view), s.furthest, Phase(m.replay, window, s.phase.floor), m.budget,
          Script(s.script.edits[..m.editCount], m.replayed, m.bridge), m.blocked, s.mode)
  }
}
