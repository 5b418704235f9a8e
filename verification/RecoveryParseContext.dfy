/** The recovery context: a strict context that may also edit the text, and whose every method
    moves the state the way the functions of `RecoveryState` say. */
module RecoveryParseContext {
  import opened Extremes
  import opened Options
  import opened StrictContext
  import opened RecoveryState

  /** An accepted edit clears the bridge, whatever it was. */
  lemma BridgeIsCleared(c: Config, s: State, e: Edit, price: U32)
    ensures Edited(c, Unbridged(s), e, price) == Edited(c, s, e, price)
  {
  }

  /** No permission depends on the bridge. */
  lemma BridgeIsIrrelevant(c: Config, s: State, offset: nat, price: U32, hatch: bool)
    ensures CanEditAt(c, Unbridged(s), offset) == CanEditAt(c, s, offset)
    ensures ClusterAllowed(c, Unbridged(s)) == ClusterAllowed(c, s)
    ensures CanAfford(c, Unbridged(s), price) == CanAfford(c, s, price)
    ensures OutsideWindow(Unbridged(s), hatch) == OutsideWindow(s, hatch)
    ensures CanDelete(c, Unbridged(s)) == CanDelete(c, s)
  {
    hide CanReplayAt, Affords, MatchesDelete;
  }

  lemma OnlyPendingMatches(c: Config, replayed: nat, offset: nat, element: Option<Element>, message: string)
    ensures MatchesInsert(c, replayed, offset, element, message) ==> PendingCommitted(c, replayed)
  {
  }

  lemma OnlyPendingReplaces(c: Config, replayed: nat, begin: nat, end: nat, element: Option<Element>)
    ensures MatchesReplace(c, replayed, begin, end, element) ==> PendingCommitted(c, replayed)
  {
  }

  lemma OnlyPendingDeletes(c: Config, replayed: nat, offset: nat)
    ensures MatchesDelete(c, replayed, offset) ==> PendingCommitted(c, replayed)
  {
  }

  /** A bridge that does not join onto the last delete makes no difference to the next one. */
  lemma ErasingDropsStaleBridge(c: Config, s: State)
    ensures !Merges(s.script, s.view.cursor) ==> Erased(c, Unbridged(s)) == Erased(c, s) && !Merges(Unbridged(s).script, s.view.cursor)
  {
    hide Noted;
  }

  /** A new bridge replaces the old one. */
  lemma BridgingForgets(s: State, end: nat)
    ensures BridgedTo(Unbridged(s), end) == BridgedTo(s, end)
  {
  }

  class RecoveryContext {
    const config: Config
    var cursor: nat
    var lastVisible: nat
    var frames: seq<seq<Cst>>
    var furthest: nat
    var budget: Budget
    var replay: Replay
    var window: Option<EditWindow>
    var floor: nat
    var edits: seq<Edit>
    var replayed: nat
    var bridge: Option<Bridge>
    var blocked: bool
    var mode: Mode

    function Tree(): View
      reads this`cursor, this`lastVisible, this`frames
    {
      View(cursor, lastVisible, frames)
    }

    function Status(): Phase
      reads this`replay, this`window, this`floor
    {
      Phase(replay, window, floor)
    }

    function Log(): Script
      reads this`edits, this`replayed, this`bridge
    {
      Script(edits, replayed, bridge)
    }

    function Now(): State
      reads this
    {
      State(Tree(), furthest, Status(), budget, Log(), blocked, mode)
    }

    ghost predicate Valid()
      reads this
    {
      config.Valid() && frames != [] && cursor <= config.size
    }

    constructor (config: Config, mode: Mode)
      requires config.Valid()
      ensures Valid() && this.config == config && Now() == Fresh(mode)
    {
      this.config := config;
      cursor, lastVisible, frames, furthest := 0, 0, [[]], 0;
      budget := Budget(0, 0, 0, false, false);
      replay, window, floor := NEW_REPLAY, None, 0;
      edits, replayed, bridge := [], 0, None;
      blocked, this.mode := false, mode;
    }

    method SetEditWindow(window: Option<EditWindow>)
      modifies this
      ensures Now() == Windowed(old(Now()), window)
    {
      this.window := window;
      replay := NEW_REPLAY.(costBase := budget.cost, countBase := budget.count, inPhase := false, bookkeeping := window.Some?);
      floor := if window.Some? then window.value.editFloor else 0;
      bridge := None;
    }

    // Phases --------------------------------------------------------------------

    method MaybeDisableBookkeeping()
      modifies this`replay
      ensures Status() == Quiesced(old(Status()))
    {
      if replay.inPhase || replay.awaiting || WindowPending(Status()) {
        return;
      }
      replay := replay.(bookkeeping := false);
    }

    method BeginActiveWindow()
      requires window.Some?
      modifies this`replay, this`floor
      ensures Status() == Opened(old(Status()), budget)
    {
      replay := replay.(bookkeeping := true, inPhase := true, costBase := budget.cost, countBase := budget.count,
                        forward := 0, strict := 0, reachedTarget := false, stable := false, awaiting := false);
      floor := window.value.editFloor;
    }

    method CompleteActiveWindow(reachedEnd: bool)
      requires window.Some?
      modifies this`replay
      ensures Status() == Completed(old(Status()), reachedEnd)
    {
      var reached := reachedEnd || replay.forward >= ForwardBudget(window.value);
      replay := replay.(completedWindows := replay.completedWindows + 1, reachedTarget := reached, stable := reachedEnd,
                        awaiting := reached && !reachedEnd, strict := 0, forward := 0, inPhase := false, completed := true);
      MaybeDisableBookkeeping();
    }

    method BecomeStable()
      modifies this`replay
      ensures Status() == Stabilized(old(Status()))
    {
      replay := replay.(stable := true, awaiting := false);
      MaybeDisableBookkeeping();
    }

    /** The phase loop runs until nothing changes any more. */
    method RefreshRecoveryPhaseSlow()
      modifies this`replay, this`floor
      ensures Status() == RefreshedSlow(config, old(Status()), budget, replayed, cursor)
    {
      if replay.awaiting && cursor == config.size {
        BecomeStable();
      }
      if window.None? {
        return;
      }
      ghost var start := Status();
      while true
        invariant Status() == start || (replay.completed && !replay.inPhase && Status() == Settled(config, start, budget, replayed, cursor))
        decreases replay.inPhase
      {
        if replay.inPhase {
          if replay.completed {
            replay := replay.(inPhase := false);
            continue;
          }
          if replay.forward >= ForwardBudget(window.value) {
            CompleteActiveWindow(false);
            continue;
          }
          return;
        }
        if replay.completed {
          return;
        }
        if PendingCommitted(config, replayed) || cursor < WindowBegin(config, window.value) {
          return;
        }
        BeginActiveWindow();
        return;
      }
    }

    method RefreshRecoveryPhase()
      modifies this`replay, this`floor
      ensures Now() == Settle(config, old(Now()))
    {
      if !replay.bookkeeping {
        return;
      }
      RefreshRecoveryPhaseSlow();
    }

    method OnVisibleLeaf(begin: nat, end: nat)
      requires begin < end
      modifies this`replay
      ensures Status() == Counted(config, old(Status()), budget.hadEdits, begin)
    {
      if replay.inPhase {
        if !budget.hadEdits {
          return;
        }
        if WindowPending(Status()) && begin >= window.value.maxCursor {
          replay := replay.(forward := replay.forward + 1);
        }
        return;
      }
      if replay.awaiting {
        replay := replay.(strict := replay.strict + 1);
        if replay.strict >= config.stabilityTokens {
          BecomeStable();
          return;
        }
      }
    }

    method FinalizeAtEnd()
      modifies this`replay
      ensures Status() == Finalized(config, old(Status()), cursor)
    {
      if cursor != config.size {
        return;
      }
      if replay.inPhase && WindowPending(Status()) {
        CompleteActiveWindow(true);
        return;
      }
      if replay.awaiting {
        BecomeStable();
      }
    }

    // Tree ----------------------------------------------------------------------

    method Grow(nodes: seq<Cst>, cursor': nat, lastVisible': nat)
      requires frames != []
      modifies this`frames, this`cursor, this`lastVisible
      ensures frames != [] && cursor == cursor' && lastVisible == lastVisible'
      ensures Tree() == old(Tree()).Append(nodes, cursor', lastVisible')
    {
      var depth := |frames| - 1;
      frames := frames[..depth] + [frames[depth] + nodes];
      cursor, lastVisible := cursor', lastVisible';
    }

    method AfterTrackedSkip()
      modifies this`bridge, this`replay, this`floor
      ensures Now() == AfterSkip(config, old(Now()))
    {
      hide Settle;
      bridge := None;
      RefreshRecoveryPhase();
    }

    method AfterTrackedLeaf(begin: nat, end: nat, hidden: bool)
      modifies this`bridge, this`replay, this`floor, this`budget
      ensures Now() == AfterLeaf(config, old(Now()), begin, end, hidden)
    {
      hide Refreshed, Counted;
      bridge := None;
      if replay.bookkeeping && !hidden && end > begin {
        OnVisibleLeaf(begin, end);
      }
      RefreshRecoveryPhase();
      if mode.track && budget.consecutiveDeletes != 0 {
        budget := budget.(consecutiveDeletes := 0);
      }
    }

    method SkipTrivia(skipper: Skipper)
      requires Valid() && skipper.Valid(config.size)
      modifies this`frames, this`cursor, this`lastVisible, this`furthest, this`bridge, this`replay, this`floor
      ensures Valid() && Now() == Skipped(config, old(Now()), skipper)
    {
      hide AfterSkip, View.Append;
      Grow(skipper.trivia(cursor), skipper.next(cursor), lastVisible);
      furthest := Max(furthest, cursor);
      AfterTrackedSkip();
    }

    method AddLeaf(begin: nat, end: nat, element: Element, hidden: bool)
      requires Valid() && begin <= end <= config.size
      modifies this`frames, this`cursor, this`lastVisible, this`furthest, this`bridge, this`replay, this`floor, this`budget
      ensures Valid() && Now() == Leafed(config, old(Now()), begin, end, element, hidden)
    {
      hide AfterLeaf, View.Append;
      Grow([StrictContext.Leaf(element, begin, end, hidden)], end, if hidden then lastVisible else end);
      furthest := Max(furthest, cursor);
      AfterTrackedLeaf(begin, end, hidden);
    }

    method EnterNode()
      requires Valid()
      modifies this`frames
      ensures Valid() && Tree() == old(Tree()).Opened()
    {
      frames := frames + [[]];
    }

    method ExitNode(begin: nat, element: Element)
      requires Valid() && |frames| >= 2
      modifies this`frames, this`budget
      ensures Valid() && Now() == Exited(old(Now()), begin, element)
    {
      var parent := |frames| - 2;
      frames := frames[..parent] + [frames[parent] + [StrictContext.Node(element, begin, lastVisible, frames[parent + 1])]];
      if mode.track && budget.consecutiveDeletes != 0 {
        budget := budget.(consecutiveDeletes := 0);
      }
    }

    // Edits ---------------------------------------------------------------------

    method NoteReplayRequirement(kind: Kind)
      modifies this`window
      ensures Status() == Noted(config, old(Status()), kind)
    {
      if !replay.inPhase || !WindowPending(Status()) {
        return;
      }
      var base := if kind == Inserted then config.stabilityTokens else window.value.forwardTokens;
      var next := Saturated(replay.forward + base);
      if next <= window.value.replayTokens {
        return;
      }
      window := Some(window.value.(replayTokens := next));
    }

    method ApplyEdit(e: Edit, price: U32, replaying: bool)
      requires replaying == PendingCommitted(config, replayed)
      modifies this`bridge, this`edits, this`budget, this`replayed, this`window
      ensures Now() == Edited(config, old(Now()), e, price)
    {
      hide Noted;
      bridge := None;
      edits := edits + [e];
      budget := Charged(budget, price);
      if replaying {
        replayed := replayed + 1;
      }
      NoteReplayRequirement(e.kind);
    }

    method InsertSynthetic(element: Element) returns (ok: bool)
      requires Valid()
      modifies this
      ensures Valid() && ok == old(AcceptsInsert(config, Now(), element))
      ensures Now() == if ok then Edited(config, old(Now()), Insertion(old(Now()), element), INSERT_COST)
                       else Refused(config, old(Now()), Step.Insert(element))
    {
      hide Edited, CanEditAt, CanAfford, ClusterAllowed, MatchesInsert;
      if !mode.track {
        return false;
      }
      var replaying := MatchesInsert(config, replayed, cursor, Some(element), "");
      if PendingCommitted(config, replayed) && !replaying {
        return false;
      }
      BridgeIsIrrelevant(config, Now(), cursor, INSERT_COST, false);
      bridge := None;
      var canInsert := mode.allowInsert && (CanEditAt(config, Now(), cursor) || ClusterAllowed(config, Now()));
      if !canInsert || !CanAfford(config, Now(), INSERT_COST) {
        return false;
      }
      BridgeIsCleared(config, old(Now()), Insertion(Now(), element), INSERT_COST);
      OnlyPendingMatches(config, replayed, cursor, Some(element), "");
      ApplyEdit(Insertion(Now(), element), INSERT_COST, replaying);
      return true;
    }

    /** Inserts at a position ahead of the cursor; the caller adds the leaf up to there. */
    method InsertSyntheticGapAt(position: nat, message: string) returns (ok: bool)
      requires Valid()
      modifies this`bridge, this`edits, this`budget, this`replayed, this`window
      ensures ok == old(AcceptsGap(config, Now(), position, message))
      ensures ok ==> Now() == Edited(config, old(Now()), Gap(position, message), INSERT_COST)
      ensures !ok ==> Now() == Refused(config, old(Now()), Step.InsertGap(position, message, Trivia))
    {
      hide Edited, CanEditAt, CanAfford, MatchesInsert;
      if !mode.track || position > config.size {
        return false;
      }
      var replaying := MatchesInsert(config, replayed, position, None, message);
      if PendingCommitted(config, replayed) && !replaying {
        return false;
      }
      BridgeIsIrrelevant(config, Now(), position, INSERT_COST, false);
      bridge := None;
      if !(mode.allowInsert && CanEditAt(config, Now(), position)) || !CanAfford(config, Now(), INSERT_COST) {
        return false;
      }
      BridgeIsCleared(config, old(Now()), Gap(position, message), INSERT_COST);
      OnlyPendingMatches(config, replayed, position, None, message);
      ApplyEdit(Gap(position, message), INSERT_COST, replaying);
      return true;
    }

    /** The source text already matches; only a separator is missing at `position`. */
    method InsertGapAndMatch(position: nat, message: string, element: Element) returns (ok: bool)
      requires Valid() && cursor <= position
      modifies this
      ensures Valid() && ok == old(AcceptsGap(config, Now(), position, message))
      ensures Now() == if ok then Leafed(config, Edited(config, old(Now()), Gap(position, message), INSERT_COST),
                                         old(cursor), position, element, false)
                       else Refused(config, old(Now()), Step.InsertGap(position, message, element))
    {
      assert old(AcceptsGap(config, Now(), position, message)) ==> position <= config.size;
      hide AcceptsGap, Leafed, PendingCommitted, MatchesInsert;
      ok := InsertSyntheticGapAt(position, message);
      if ok {
        AddLeaf(cursor, position, element, false);
      }
    }

    method ReplaceLeaf(end: nat, element: Element, price: U32, hidden: bool, distance: U32) returns (ok: bool)
      requires Valid()
      modifies this
      ensures Valid() && ok == old(AcceptsReplace(config, Now(), end, element, price, distance))
      ensures Now() == if ok then Leafed(config, Edited(config, old(Now()), Replacement(old(Now()), end, element), price),
                                         old(cursor), end, element, hidden)
                       else Refused(config, old(Now()), Step.Replace(end, element, price, hidden, distance))
    {
      hide Edited, Leafed, CanEditAt, CanAfford, OutsideWindow, MatchesReplace, WordKeyword;
      if !mode.track {
        return false;
      }
      BridgeIsIrrelevant(config, Now(), cursor, price, !WordKeyword(config, element, distance));
      BridgeIsIrrelevant(config, Now(), end, price, !WordKeyword(config, element, distance));
      bridge := None;
      if end <= cursor || end > config.size {
        return false;
      }
      var replaying := MatchesReplace(config, replayed, cursor, end, Some(element));
      if PendingCommitted(config, replayed) && !replaying {
        return false;
      }
      var keyword := WordKeyword(config, element, distance);
      if !CanEditAt(config, Now(), cursor) || OutsideWindow(Now(), !keyword) || !CanEditAt(config, Now(), end)
         || !CanAfford(config, Now(), price) {
        return false;
      }
      BridgeIsCleared(config, old(Now()), Replacement(Now(), end, element), price);
      OnlyPendingReplaces(config, replayed, cursor, end, Some(element));
      ApplyEdit(Replacement(Now(), end, element), price, replaying);
      AddLeaf(cursor, end, element, hidden);
      return true;
    }

    method AdvanceDeleteReplay()
      modifies this`replayed
      ensures Log() == DeleteReplayed(config, old(Log()), cursor)
    {
      if !PendingCommitted(config, replayed) || config.committed[replayed].kind != Deleted {
        return;
      }
      if cursor >= config.committed[replayed].end {
        replayed := replayed + 1;
      }
    }

    /** Whether the last edit is a delete that ends where the bridged trivia begins; if not, the bridge goes. */
    method PendingBridgedDelete() returns (merges: bool)
      modifies this`bridge
      ensures merges == Merges(old(Log()), cursor)
      ensures Log() == if merges then old(Log()) else old(Log()).(bridge := None)
    {
      if bridge.None? {
        return false;
      }
      if bridge.value.end != cursor || edits == [] {
        bridge := None;
        return false;
      }
      var last := edits[|edits| - 1];
      if last.kind != Deleted || last.end != bridge.value.begin {
        bridge := None;
        return false;
      }
      return true;
    }

    /** Adds a delete to the script, or joins it to the last one. */
    method LogDelete(merges: bool, end: nat)
      requires merges == Merges(Log(), cursor)
      modifies this`edits, this`bridge
      ensures Log() == WithDelete(old(Log()), cursor, end)
    {
      if merges {
        var k := |edits| - 1;
        edits := edits[k := edits[k].(end := end)];
      } else {
        edits := edits + [Edit(Deleted, cursor, end, None, "")];
      }
      bridge := None;
    }

    method MoveTo(end: nat)
      requires end <= config.size && Valid()
      modifies this`cursor, this`furthest
      ensures Valid() && Now() == MovedTo(old(Now()), end)
    {
      cursor := end;
      furthest := Max(furthest, cursor);
    }

    /** Records an accepted delete and steps over its codepoint. */
    method Erase(merges: bool)
      requires merges == Merges(Log(), cursor) && Valid() && cursor < config.size
      modifies this`edits, this`bridge, this`budget, this`window, this`cursor, this`furthest
      ensures Valid() && Now() == Erased(config, old(Now()))
    {
      var next := cursor + config.width(cursor);
      assert next <= config.size;
      hide Config.Valid, Noted, Merges, WithDelete, ChargedDelete, MovedTo;
      LogDelete(merges, next);
      budget := ChargedDelete(budget);
      NoteReplayRequirement(Deleted);
      MoveTo(next);
    }

    /** The checks before a delete; a refusal, like a bridge that joins onto nothing, drops the bridge. */
    method AdmitDelete() returns (ok: bool, replaying: bool, merges: bool)
      requires Valid()
      modifies this`bridge
      ensures ok == AcceptsDelete(config, old(Now()))
      ensures ok ==> replaying == PendingCommitted(config, replayed) && merges == Merges(Log(), cursor)
      ensures ok ==> Erased(config, Now()) == Erased(config, old(Now()))
      ensures !ok ==> forall skipper :: Now() == Refused(config, old(Now()), Step.Delete(skipper))
    {
      hide Erased, CanDelete, CanAfford, OutsideWindow, MatchesDelete, Merges;
      ok, replaying, merges := false, false, false;
      if !mode.track {
        return;
      }
      if cursor >= config.size {
        bridge := None;
        return;
      }
      replaying := MatchesDelete(config, replayed, cursor);
      if PendingCommitted(config, replayed) && !replaying {
        bridge := None;
        return;
      }
      OnlyPendingDeletes(config, replayed, cursor);
      BridgeIsIrrelevant(config, Now(), cursor, DELETE_COST, budget.consecutiveDeletes == 0);
      ErasingDropsStaleBridge(config, Now());
      merges := PendingBridgedDelete();
      if !CanDelete(config, Now()) || OutsideWindow(Now(), budget.consecutiveDeletes == 0) || !CanAfford(config, Now(), DELETE_COST) {
        bridge := None;
        return;
      }
      if cursor + config.width(cursor) <= cursor {
        bridge := None;
        return;
      }
      ok := true;
    }

    method DeleteOneCodepoint(skipper: Skipper) returns (ok: bool)
      requires Valid() && skipper.Valid(config.size)
      modifies this
      ensures Valid() && ok == old(AcceptsDelete(config, Now()))
      ensures Now() == if ok then DeletedStep(config, old(Now()), skipper)
                       else Refused(config, old(Now()), Step.Delete(skipper))
    {
      hide Erased, Skipped, Settle, DeleteReplayed, Refused, PendingCommitted, Merges;
      assert old(AcceptsDelete(config, Now())) ==> cursor < config.size;
      hide AcceptsDelete;
      var replaying, merges;
      ok, replaying, merges := AdmitDelete();
      if !ok {
        return;
      }
      Erase(merges);
      if mode.skipAfterDelete {
        SkipTrivia(skipper);
      } else {
        RefreshRecoveryPhase();
      }
      if replaying {
        AdvanceDeleteReplay();
      }
    }

    method LayBridge(end: nat)
      requires Valid() && end <= config.size
      modifies this`bridge, this`cursor, this`furthest
      ensures Valid() && Now() == BridgedTo(old(Now()), end)
    {
      bridge := Some(Bridge(cursor, end));
      cursor := end;
      furthest := Max(furthest, cursor);
    }

    /** The checks before a bridge; past the first ones a refusal drops the old bridge. */
    method AdmitBridge(skipper: Skipper) returns (ok: bool, replaying: bool)
      requires Valid()
      modifies this`bridge
      ensures ok == AcceptsBridge(config, old(Now()), skipper)
      ensures ok ==> replaying == PendingCommitted(config, replayed) && Now() == Unbridged(old(Now()))
      ensures !ok ==> Now() == Refused(config, old(Now()), Step.ExtendDelete(skipper))
    {
      hide MatchesDelete;
      ok, replaying := false, false;
      if !mode.track || edits == [] || cursor >= config.size {
        return;
      }
      replaying := MatchesDelete(config, replayed, cursor);
      if PendingCommitted(config, replayed) && !replaying {
        return;
      }
      OnlyPendingDeletes(config, replayed, cursor);
      bridge := None;
      var last := edits[|edits| - 1];
      if last.kind != Deleted || last.end != cursor {
        return;
      }
      var end := skipper.next(cursor);
      ok := cursor < end && !(replaying && end > config.committed[replayed].end) && end < config.size;
    }

    method ExtendLastDelete(skipper: Skipper) returns (ok: bool)
      requires Valid() && skipper.Valid(config.size)
      modifies this
      ensures Valid() && ok == old(AcceptsBridge(config, Now(), skipper))
      ensures Now() == if ok then BridgedStep(config, old(Now()), skipper)
                       else Refused(config, old(Now()), Step.ExtendDelete(skipper))
    {
      hide Settle, DeleteReplayed, BridgedTo, PendingCommitted, AcceptsBridge, Refused;
      BridgingForgets(Now(), skipper.next(cursor));
      var replaying;
      ok, replaying := AdmitBridge(skipper);
      if !ok {
        return;
      }
      LayBridge(skipper.next(cursor));
      RefreshRecoveryPhase();
      if replaying {
        AdvanceDeleteReplay();
      }
    }

    // Marks ---------------------------------------------------------------------

    method TakeMark() returns (m: Mark)
      requires Valid()
      ensures m == MarkedAt(Now())
    {
      m := Mark(Checkpoint(cursor, lastVisible, |frames| - 1, |frames[|frames| - 1]|), budget, replay, blocked, |edits|, replayed,
                Tokens(window), bridge);
    }

    method OverrideGrammarElement(child: nat, element: Element)
      requires Valid() && child < |frames[|frames| - 1]|
      modifies this`frames
      ensures Valid() && Now() == Next(config, old(Now()), Step.RelabelChild(child, element))
    {
      var depth := |frames| - 1;
      frames := frames[depth := frames[depth][child := Relabel(frames[depth][child], element)]];
    }

    method RewindTree(m: Checkpoint)
      requires m.depth < |frames| && m.count <= |frames[m.depth]|
      modifies this`frames, this`cursor, this`lastVisible
      ensures frames != [] && cursor == m.cursor && Tree() == RewoundView(old(Tree()), m)
    {
      frames := frames[..m.depth] + [frames[m.depth][..m.count]];
      cursor, lastVisible := m.cursor, m.lastVisible;
    }

    method RewindScript(m: Mark)
      requires m.editCount <= |edits|
      modifies this`edits, this`replayed, this`bridge
      ensures Log() == Script(old(edits)[..m.editCount], m.replayed, m.bridge)
    {
      bridge, replayed := m.bridge, m.replayed;
      if |edits| != m.editCount {
        edits := edits[..m.editCount];
      }
    }

    method RewindWindow(m: Mark)
      modifies this`replay, this`window
      ensures Status() == Phase(m.replay, if old(window).Some? then Some(old(window).value.(replayTokens := m.replayTokens)) else None, floor)
    {
      replay := m.replay;
      if window.Some? {
        window := Some(window.value.(replayTokens := m.replayTokens));
      }
    }

    method Rewind(m: Mark)
      requires Valid() && m.view.cursor <= config.size && CanRewind(Now(), m)
      modifies this
      ensures Valid() && Now() == Rewound(old(Now()), m)
    {
      hide RewoundView;
      RewindTree(m.view);
      RewindScript(m);
      RewindWindow(m);
      budget, blocked := m.budget, m.blocked;
    }
  }
}
