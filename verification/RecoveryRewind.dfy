/** Going back to a mark.

    A mark records the depth of the tree, the length of the script and all small state by value, so
    a rewind truncates and copies.  It undoes everything except one thing: a delete that was joined
    to an entry older than the mark, across bridged trivia, stays as long as it became. */
module RecoveryRewind {
  import opened Options
  import opened StrictContext
  import opened RecoveryState
  import opened RecoveryPhase
  import opened RecoveryScript

  /** A mark together with the state it was taken in and the number of joins recorded by then. */
  datatype Saved = Saved(state: State, joins: nat)

  /** The positions in the script at which deletes were joined, over the whole run; never undone. */
  type Joins = seq<nat>

  ghost function JoinsAfter(c: Config, s: State, step: Step, joins: Joins): Joins {
    if Deletes(c, s, step) && Merges(s.script, s.view.cursor) then joins + [|s.script.edits| - 1] else joins
  }

  predicate SameWindow(a: Option<EditWindow>, b: Option<EditWindow>) {
    match a
    case None => b.None?
    case Some(w) => b.Some? && b.value.(replayTokens := w.replayTokens) == w
  }

  /** An entry kept since a mark is as it was, except that a delete ends later exactly if another was joined to it. */
  ghost predicate EntryKept(before: Edit, after: Edit, joined: bool) {
    && after.(end := before.end) == before && before.end <= after.end
    && (joined <==> before.end < after.end) && (joined ==> before.kind == Deleted)
  }

  ghost predicate EditsKept(before: seq<Edit>, after: seq<Edit>, joins: Joins) {
    && |before| <= |after|
    && forall i: nat :: i < |before| ==> EntryKept(before[i], after[i], i in joins)
  }

  /** A kept entry that a delete was joined to reaches past the position `cursor`. */
  ghost predicate JoinedPast(count: nat, after: seq<Edit>, joins: Joins, cursor: nat) {
    count <= |after| && forall i: nat :: i < count && i in joins ==> cursor < after[i].end
  }

  /** No delete was joined to an entry older than the mark. */
  ghost predicate Untouched(saved: Saved, joins: Joins)
    requires saved.joins <= |joins|
  {
    forall i: nat :: i < |saved.state.script.edits| ==> i !in joins[saved.joins..]
  }

  /** A delete may yet be joined to the last entry: it is a delete that ends at the cursor, or past it
      after a rewind that was not exact, or where a pending bridge begins. */
  predicate Joinable(s: State) {
    && s.script.edits != []
    && var last := s.script.edits[|s.script.edits| - 1];
       && last.kind == Deleted
       && (s.view.cursor <= last.end || (s.script.bridge.Some? && s.script.bridge.value.begin == last.end))
  }

  /** A bridge pending now was pending at the mark, or begins at or past the mark's cursor. */
  predicate BridgeSince(saved: State, now: State) {
    now.script.bridge.None? || now.script.bridge == saved.script.bridge || saved.view.cursor <= now.script.bridge.value.begin
  }

  /** `now` was reached from the marked state without closing the node then open. */
  ghost predicate Since(saved: Saved, now: State, joins: Joins) {
    && saved.state.view.cursor <= now.view.cursor
    && saved.joins <= |joins|
    && JoinedPast(|saved.state.script.edits|, now.script.edits, joins[saved.joins..], saved.state.view.cursor)
    && saved.state.view.Valid() && Extends(saved.state.view, now.view)
    && EditsKept(saved.state.script.edits, now.script.edits, joins[saved.joins..])
    && SameWindow(saved.state.phase.window, now.phase.window) && now.phase.floor == saved.state.phase.floor
    && BridgeSince(saved.state, now) && (!Joinable(saved.state) ==> Untouched(saved, joins))
  }

  /** What a rewind gives back: the marked state, with the script as it is now and what no mark records. */
  ghost function Restored(saved: State, now: State): State
    requires |saved.script.edits| <= |now.script.edits|
  {
    saved.(script := saved.script.(edits := now.script.edits[..|saved.script.edits|]), furthest := now.furthest, mode := now.mode)
  }

  /** After any steps since a mark, the rewind restores cursor, tree, phase, budget, replay position,
      bridge, the window's tokens and the script's length; and the script itself exactly when no
      delete was joined to an entry older than the mark. */
  lemma RewindRestores(saved: Saved, now: State, joins: Joins)
    requires Since(saved, now, joins)
    ensures CanRewind(now, MarkedAt(saved.state))
    ensures Rewound(now, MarkedAt(saved.state)) == Restored(saved.state, now)
    ensures Rewound(now, MarkedAt(saved.state)).script.edits == saved.state.script.edits <==> Untouched(saved, joins)
  {
    var v := saved.state.view;
    var m := MarkedAt(saved.state);
    assert now.view.frames[v.Depth()][..|v.Top()|] == v.Top();
    assert v.frames == v.frames[..v.Depth()] + [v.Top()];
    assert RewoundView(now.view, m.view) == v;
    var before, kept := saved.state.script.edits, now.script.edits[..|saved.state.script.edits|];
    assert (forall i: nat :: i < |before| ==> EntryKept(before[i], kept[i], i in joins[saved.joins..]));
    if kept == before {
      forall i: nat | i < |before|
        ensures i !in joins[saved.joins..]
      {
        assert EntryKept(before[i], kept[i], i in joins[saved.joins..]);
      }
    }
    if Untouched(saved, joins) {
      forall i: nat | i < |before|
        ensures kept[i] == before[i]
      {
        assert EntryKept(before[i], kept[i], i in joins[saved.joins..]);
      }
    }
  }

  lemma AppendExtends(v: View, nodes: seq<Cst>, cursor: nat, lastVisible: nat)
    requires v.Valid()
    ensures v.Append(nodes, cursor, lastVisible).Valid() && Extends(v, v.Append(nodes, cursor, lastVisible))
    ensures |v.Append(nodes, cursor, lastVisible).frames| == |v.frames|
  {
  }

  /** Closing a node opened after the mark leaves everything the mark saw. */
  lemma ClosingKeepsOlder(saved: View, v: View, begin: nat, element: Element)
    requires saved.Valid() && Extends(saved, v) && |saved.frames| < |v.frames|
    ensures Extends(saved, Closed(v, begin, element))
  {
    var t := Closed(v, begin, element);
    var d := saved.Depth();
    assert t.frames[..d] == v.frames[..d];
    assert saved.Top() <= v.frames[d];
  }

  /** Relabelling a child added after the mark leaves everything the mark saw. */
  lemma RelabellingKeepsOlder(saved: View, v: View, child: nat, element: Element)
    requires saved.Valid() && v.Valid() && Extends(saved, v) && child < |v.Top()|
    requires |saved.frames| < |v.frames| || |saved.Top()| <= child
    ensures Extends(saved, Relabelled(v, child, element)) && Relabelled(v, child, element).Valid()
  {
    var t := Relabelled(v, child, element);
    var d := saved.Depth();
    assert t.frames[..d] == v.frames[..d];
    if d < v.Depth() {
      assert t.frames[d] == v.frames[d];
    } else {
      assert forall i: nat :: i < |saved.Top()| ==> t.frames[d][i] == v.frames[d][i];
    }
  }

  /** The tree of `t` grew from that of `s`, below the node open in it. */
  ghost predicate Below(s: State, t: State) {
    s.view.Valid() && t.view.Valid() && Extends(s.view, t.view) && |s.view.frames| <= |t.view.frames|
  }

  lemma LeafGrows(c: Config, s: State, begin: nat, end: nat, element: Element, hidden: bool)
    requires s.view.Valid()
    ensures Below(s, Leafed(c, s, begin, end, element, hidden))
  {
    hide Refreshed, Hooked;
    AppendExtends(s.view, [StrictContext.Leaf(element, begin, end, hidden)], end, if hidden then s.view.lastVisible else end);
  }

  lemma SkipGrows(c: Config, s: State, skipper: Skipper)
    requires s.view.Valid()
    ensures Below(s, Skipped(c, s, skipper))
  {
    hide Refreshed;
    AppendExtends(s.view, skipper.trivia(s.view.cursor), skipper.next(s.view.cursor), s.view.lastVisible);
  }

  lemma DeleteGrows(c: Config, s: State, skipper: Skipper)
    requires s.view.Valid()
    ensures Below(s, DeletedStep(c, s, skipper))
  {
    hide Refreshed, Noted, WithDelete, Skipped;
    assert Erased(c, s).view.frames == s.view.frames;
    SkipGrows(c, Erased(c, s), skipper);
  }

  lemma BridgeGrows(c: Config, s: State, skipper: Skipper)
    requires s.view.Valid()
    ensures Below(s, BridgedStep(c, s, skipper))
  {
    hide Refreshed;
  }

  lemma EditedLeafGrows(c: Config, s: State, e: Edit, price: U32, begin: nat, end: nat, element: Element, hidden: bool)
    requires s.view.Valid()
    ensures Below(s, Leafed(c, Edited(c, s, e, price), begin, end, element, hidden))
  {
    hide Noted, Leafed;
    LeafGrows(c, Edited(c, s, e, price), begin, end, element, hidden);
  }

  lemma EnterGrows(s: State)
    requires s.view.Valid()
    ensures Below(s, s.(view := s.view.Opened()))
  {
    assert s.view.Opened().frames[..s.view.Depth()] == s.view.frames[..s.view.Depth()];
  }

  lemma OthersGrow(c: Config, s: State, step: Step)
    requires Enabled(c, s, step)
    ensures Below(s, Refused(c, s, step))
    ensures Accepts(c, s, step) && (step.Insert? || step.Finalize? || step.Overflow? || step.Block? || step.ChangeMode?) ==>
              Below(s, Next(c, s, step))
  {
    hide KeepsBridge, Accepts, Noted, Finalized;
  }

  /** A step grows the tree below the node that is open, or closes that node, or relabels a child of it. */
  lemma NextView(c: Config, s: State, step: Step)
    requires Enabled(c, s, step)
    ensures var t := Next(c, s, step);
            && t.view.Valid()
            && (step.Exit? ==> t.view == Closed(s.view, step.begin, step.element))
            && (step.RelabelChild? ==> t.view == Relabelled(s.view, step.child, step.element))
            && (!step.Exit? && !step.RelabelChild? ==> Extends(s.view, t.view) && |s.view.frames| <= |t.view.frames|)
  {
    assert step.Exit? || step.RelabelChild? ==> Accepts(c, s, step);
    hide Refused, Skipped, Leafed, DeletedStep, BridgedStep, Edited, Finalized, Accepts, Extends;
    OthersGrow(c, s, step);
    match step
    case Skip(skipper) => SkipGrows(c, s, skipper);
    case Leaf(begin, end, element, hidden) => LeafGrows(c, s, begin, end, element, hidden);
    case InsertGap(position, message, element) =>
      EditedLeafGrows(c, s, Gap(position, message), INSERT_COST, s.view.cursor, position, element, false);
    case Replace(end, element, price, hidden, _) =>
      EditedLeafGrows(c, s, Replacement(s, end, element), price, s.view.cursor, end, element, hidden);
    case Delete(skipper) => DeleteGrows(c, s, skipper);
    case ExtendDelete(skipper) => BridgeGrows(c, s, skipper);
    case Enter => EnterGrows(s);
    case _ =>
  }

  lemma NotingKeepsWindow(c: Config, p: Phase, kind: Kind)
    ensures var q := Noted(c, p, kind); SameWindow(p.window, q.window) && q.floor == p.floor
  {
  }

  lemma HookKeepsWindow(c: Config, p: Phase, hadEdits: bool, leaf: Span)
    ensures var q := Hooked(c, p, hadEdits, leaf.begin, leaf.end, leaf.hidden); q.window == p.window && q.floor == p.floor
  {
  }

  lemma RefreshKeepsWindow(c: Config, p: Phase, b: Budget, replayed: nat, cursor: nat)
    requires PhaseOk(c, p, replayed)
    ensures var q := Refreshed(c, p, b, replayed, cursor); q.window == p.window && q.floor == p.floor
  {
  }

  lemma FinalizeKeepsWindow(c: Config, p: Phase, cursor: nat)
    ensures var q := Finalized(c, p, cursor); q.window == p.window && q.floor == p.floor
  {
  }

  lemma NextKeepsWindow(c: Config, s: State, step: Step)
    requires Enabled(c, s, step) && PhaseOk(c, s.phase, s.script.replayed)
    ensures var t := Next(c, s, step); SameWindow(s.phase.window, t.phase.window) && t.phase.floor == s.phase.floor
  {
    hide Next, Enabled, SpendOf, LeafOf, Refreshes, PhaseOk, Refreshed, Hooked, Noted, Finalized, SameCharge;
    var spend := SpendOf(c, s, step);
    var p := Prepared(c, s, step);
    NextShape(c, s, step);
    PreparedIsOk(c, s, step);
    if spend.Spent? {
      NotingKeepsWindow(c, s.phase, spend.kind);
    }
    var leaf := LeafOf(c, s, step);
    if leaf.Some? {
      HookKeepsWindow(c, NotedSpend(c, s.phase, spend), Paid(s.budget, spend).hadEdits, leaf.value);
    }
    RefreshKeepsWindow(c, p, Paid(s.budget, spend), ReplayedBy(c, s.script.replayed, spend), Next(c, s, step).view.cursor);
    FinalizeKeepsWindow(c, s.phase, s.view.cursor);
  }

  lemma NextKeepsEdits(c: Config, s: State, step: Step, before: seq<Edit>, joins: Joins)
    requires c.Valid() && Enabled(c, s, step) && BridgeOk(s) && EditsKept(before, s.script.edits, joins)
    ensures EditsKept(before, Next(c, s, step).script.edits, JoinsAfter(c, s, step, joins))
  {
    assert Deletes(c, s, step) ==> EntryOf(c, s, step).None?;
    hide Next, Enabled, EntryOf, Deletes, Bridges;
    NextScripted(c, s, step);
    var joins' := JoinsAfter(c, s, step, joins);
    var t := Next(c, s, step);
    forall i: nat | i < |before|
      ensures EntryKept(before[i], t.script.edits[i], i in joins')
    {
      assert EntryKept(before[i], s.script.edits[i], i in joins);
      if Deletes(c, s, step) && Merges(s.script, s.view.cursor) {
        var k := |s.script.edits| - 1;
        assert joins'[|joins|] == k;
        assert i in joins' <==> i in joins || i == k;
      }
    }
  }

  /** A join ends past the cursor it was made at, and entries never shrink. */
  lemma NextJoinsPast(c: Config, s: State, step: Step, count: nat, joins: Joins, cursor: nat)
    requires c.Valid() && Enabled(c, s, step) && BridgeOk(s) && cursor <= s.view.cursor
    requires JoinedPast(count, s.script.edits, joins, cursor)
    ensures s.view.cursor <= Next(c, s, step).view.cursor
    ensures JoinedPast(count, Next(c, s, step).script.edits, JoinsAfter(c, s, step, joins), cursor)
  {
    assert Deletes(c, s, step) ==> EntryOf(c, s, step).None?;
    hide Next, Enabled, EntryOf, Deletes, Bridges;
    NextScripted(c, s, step);
    var joins' := JoinsAfter(c, s, step, joins);
    var t := Next(c, s, step);
    forall i: nat | i < count && i in joins'
      ensures cursor < t.script.edits[i].end
    {
      if Deletes(c, s, step) && Merges(s.script, s.view.cursor) {
        var k := |s.script.edits| - 1;
        assert i in joins' <==> i in joins || i == k;
      }
    }
  }

  lemma NextKeepsBridgeSince(c: Config, s: State, step: Step, saved: State)
    requires c.Valid() && Enabled(c, s, step) && saved.view.cursor <= s.view.cursor && BridgeSince(saved, s)
    ensures BridgeSince(saved, Next(c, s, step))
  {
    hide Next, Enabled, EntryOf, Deletes, Bridges, Merges;
    NextScripted(c, s, step);
  }

  /** A delete is joined to an entry older than a mark only if the mark was joinable, or an earlier one was joined. */
  lemma JoinsNeedAnEnd(saved: State, s: State, joins: Joins)
    requires saved.view.cursor <= s.view.cursor && EditsKept(saved.script.edits, s.script.edits, joins) && BridgeSince(saved, s)
    requires |saved.script.edits| == |s.script.edits| && Merges(s.script, s.view.cursor)
    ensures Joinable(saved) || |s.script.edits| - 1 in joins
  {
    var k := |s.script.edits| - 1;
    assert EntryKept(saved.script.edits[k], s.script.edits[k], k in joins);
  }

  /** A mark that no delete can be joined across stays exact. */
  lemma NextKeepsUntouched(c: Config, s: State, step: Step, saved: Saved, joins: Joins)
    requires c.Valid() && Enabled(c, s, step) && Since(saved, s, joins)
    ensures saved.joins <= |JoinsAfter(c, s, step, joins)|
    ensures !Joinable(saved.state) ==> Untouched(saved, JoinsAfter(c, s, step, joins))
  {
    hide Enabled, Deletes, Joinable, Extends, SameWindow;
    var later := joins[saved.joins..];
    assert JoinsAfter(c, s, step, joins)[saved.joins..] == JoinsAfter(c, s, step, later);
    if Deletes(c, s, step) && Merges(s.script, s.view.cursor) && |saved.state.script.edits| == |s.script.edits| {
      JoinsNeedAnEnd(saved.state, s, later);
    }
  }

  /** The step neither closes the node open at the mark nor relabels what the mark saw of it. */
  ghost predicate Spares(saved: View, v: View, step: Step) {
    match step
    case Exit(_, _) => |saved.frames| < |v.frames|
    case RelabelChild(child, _) => saved.Valid() && (|saved.frames| < |v.frames| || |saved.Top()| <= child)
    case _ => true
  }

  lemma NextKeepsTree(c: Config, s: State, step: Step, saved: View)
    requires Enabled(c, s, step) && saved.Valid() && Extends(saved, s.view) && Spares(saved, s.view, step)
    ensures Extends(saved, Next(c, s, step).view)
  {
    assert s.view.Valid() && (step.RelabelChild? ==> step.child < |s.view.Top()|) && (step.Exit? ==> |s.view.frames| >= 2);
    hide Next, Enabled, Extends, Closed, Relabelled;
    NextView(c, s, step);
    if step.Exit? {
      ClosingKeepsOlder(saved, s.view, step.begin, step.element);
    } else if step.RelabelChild? {
      RelabellingKeepsOlder(saved, s.view, step.child, step.element);
    } else {
      ExtendsTransitive(saved, s.view, Next(c, s, step).view);
    }
  }

  /** A step that spares what the mark saw keeps the mark good. */
  lemma NextKeepsSince(c: Config, s: State, step: Step, saved: Saved, joins: Joins)
    requires c.Valid() && Enabled(c, s, step) && BridgeOk(s) && PhaseOk(c, s.phase, s.script.replayed)
    requires Since(saved, s, joins) && Spares(saved.state.view, s.view, step)
    ensures Since(saved, Next(c, s, step), JoinsAfter(c, s, step, joins))
  {
    hide Next, Enabled, Deletes, Merges, BridgeOk, PhaseOk, EditsKept;
    hide JoinedPast, Extends, View.Valid, Spares, Joinable, BridgeSince, Untouched;
    NextKeepsTree(c, s, step, saved.state.view);
    NextKeepsWindow(c, s, step);
    NextKeepsEdits(c, s, step, saved.state.script.edits, joins[saved.joins..]);
    NextJoinsPast(c, s, step, |saved.state.script.edits|, joins[saved.joins..], saved.state.view.cursor);
    NextKeepsBridgeSince(c, s, step, saved.state);
    NextKeepsUntouched(c, s, step, saved, joins);
    assert JoinsAfter(c, s, step, joins)[saved.joins..] == JoinsAfter(c, s, step, joins[saved.joins..]);
  }
}
