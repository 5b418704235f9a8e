/** Locating the failure in the visible leaf history, and the window recovery works in. */
module RecoveryWindow {
  import opened Extremes

  datatype Leaf = Leaf(begin: nat, end: nat)

  /** Leaves as the recorder keeps them: not empty, in text order, not overlapping. */
  ghost predicate Ordered(leaves: seq<Leaf>) {
    && (forall i: nat :: i < |leaves| ==> leaves[i].begin < leaves[i].end)
    && (forall i: nat, j: nat :: i < j < |leaves| ==> leaves[i].end <= leaves[j].begin)
  }

  datatype Snapshot = Snapshot(maxCursor: nat, leaves: seq<Leaf>, tokenIndex: nat, hasToken: bool)

  datatype Window = Window(begin: nat, editFloor: nat, maxCursor: nat, tokenCount: nat, forwardTokenCount: nat, leafBeginIndex: nat)

  predicate Covers(leaf: Leaf, cursor: nat) { leaf.begin <= cursor < leaf.end }

  /** The first leaf that covers the cursor, or failing that the last one that ends before it. */
  ghost predicate TokenFound(leaves: seq<Leaf>, cursor: nat, index: nat, found: bool) {
    if found then
      && index < |leaves|
      && (|| (Covers(leaves[index], cursor) && forall i: nat :: i < index ==> !Covers(leaves[i], cursor))
          || (&& leaves[index].end <= cursor
              && (forall i: nat :: i < |leaves| ==> !Covers(leaves[i], cursor))
              && (forall i: nat :: index < i < |leaves| ==> cursor < leaves[i].end)))
    else
      index == 0 && forall i: nat :: i < |leaves| ==> !Covers(leaves[i], cursor) && cursor < leaves[i].end
  }

  method FinalizeTokenIndex(s: Snapshot) returns (r: Snapshot)
    ensures r.maxCursor == s.maxCursor && r.leaves == s.leaves
    ensures TokenFound(r.leaves, r.maxCursor, r.tokenIndex, r.hasToken)
  {
    for index := 0 to |s.leaves|
      invariant forall i: nat :: i < index ==> !Covers(s.leaves[i], s.maxCursor)
    {
      if Covers(s.leaves[index], s.maxCursor) {
        return s.(tokenIndex := index, hasToken := true);
      }
    }
    for index := |s.leaves| downto 0
      invariant forall i: nat :: index <= i < |s.leaves| ==> s.maxCursor < s.leaves[i].end
    {
      if s.leaves[index].end <= s.maxCursor {
        return s.(tokenIndex := index, hasToken := true);
      }
    }
    return s.(tokenIndex := 0, hasToken := false);
  }

  /** On ordered leaves the two scans find the last leaf that begins at or before the cursor. */
  lemma TokenIsLastBegun(leaves: seq<Leaf>, cursor: nat, index: nat, found: bool)
    requires Ordered(leaves) && TokenFound(leaves, cursor, index, found)
    ensures found <==> exists i: nat :: i < |leaves| && leaves[i].begin <= cursor
    ensures found ==> leaves[index].begin <= cursor && forall i: nat :: index < i < |leaves| ==> cursor < leaves[i].begin
  {
    if found {
      forall i: nat | index < i < |leaves|
        ensures cursor < leaves[i].begin
      {
        assert leaves[index].end <= leaves[i].begin;
        if !Covers(leaves[index], cursor) {
          assert !Covers(leaves[i], cursor) && cursor < leaves[i].end;
        }
      }
    }
  }

  function EffectiveMaxCursor(s: Snapshot): nat {
    if s.leaves == [] then s.maxCursor else Max(s.maxCursor, s.leaves[|s.leaves| - 1].end)
  }

  /** Nothing to go back over: no leaves, no token, or no backward tokens asked for. */
  predicate Degenerate(s: Snapshot, backward: nat) {
    s.leaves == [] || backward == 0 || !s.hasToken
  }

  /** The leaf recovery is activated at. */
  function ActivationIndex(s: Snapshot, backward: nat): nat {
    if s.tokenIndex > backward then s.tokenIndex - backward else 0
  }

  ghost predicate FirstEndingPast(leaves: seq<Leaf>, offset: nat, index: nat) {
    index < |leaves| && offset < leaves[index].end && forall i: nat :: i < index ==> leaves[i].end <= offset
  }

  lemma EarlierLeavesEnd(leaves: seq<Leaf>, i: nat)
    requires Ordered(leaves) && i < |leaves|
    ensures leaves[i].begin < leaves[i].end <= leaves[|leaves| - 1].end
    ensures forall j: nat :: j < i ==> leaves[j].end <= leaves[i].begin
  {
  }

  lemma ActivationFits(s: Snapshot, backward: nat)
    requires Ordered(s.leaves) && TokenFound(s.leaves, s.maxCursor, s.tokenIndex, s.hasToken) && !Degenerate(s, backward)
    ensures ActivationIndex(s, backward) < |s.leaves| && s.leaves[ActivationIndex(s, backward)].begin < EffectiveMaxCursor(s)
  {
    TokenIsLastBegun(s.leaves, s.maxCursor, s.tokenIndex, s.hasToken);
    EarlierLeavesEnd(s.leaves, ActivationIndex(s, backward));
  }

  lemma BoundsFit(activation: nat, stableFloor: nat, effective: nat)
    requires activation < effective
    ensures var floor := Min(stableFloor, effective);
            var replay := if floor == 0 then activation else Min(activation, floor);
            && replay <= activation <= Max(activation, floor) <= effective
            && (stableFloor == 0 ==> replay == activation == Max(activation, floor))
            && (stableFloor > 0 ==> replay == Min(activation, floor))
  {
  }

  method ComputeWindow(s: Snapshot, backward: nat, forwardTokens: nat, stableFloor: nat) returns (w: Window)
    requires Ordered(s.leaves) && TokenFound(s.leaves, s.maxCursor, s.tokenIndex, s.hasToken)
    ensures w.maxCursor == EffectiveMaxCursor(s) && w.tokenCount == backward && w.forwardTokenCount == forwardTokens
    ensures w.begin <= w.editFloor <= w.maxCursor
    ensures Degenerate(s, backward) ==> w.begin == w.editFloor == w.maxCursor && w.leafBeginIndex == 0
    ensures !Degenerate(s, backward) ==>
              var activation := ActivationIndex(s, backward);
              && (activation + backward == s.tokenIndex || (activation == 0 && s.tokenIndex <= backward))
              && w.begin <= s.leaves[activation].begin <= w.editFloor
              && (stableFloor == 0 ==> w.begin == w.editFloor == s.leaves[activation].begin)
              && (stableFloor > 0 ==> w.begin == Min(s.leaves[activation].begin, Min(stableFloor, w.maxCursor)))
              && (stableFloor > 0 ==> w.editFloor == Max(s.leaves[activation].begin, Min(stableFloor, w.maxCursor)))
              && w.leafBeginIndex <= activation
              && FirstEndingPast(s.leaves, w.begin, w.leafBeginIndex)
  {
    hide TokenFound, Ordered, Min, Max, EffectiveMaxCursor;
    var effective := EffectiveMaxCursor(s);
    w := Window(effective, effective, effective, backward, forwardTokens, 0);
    if s.leaves == [] || backward == 0 || !s.hasToken {
      return;
    }
    ActivationFits(s, backward);
    var beginIndex := ActivationIndex(s, backward);
    var floor := Min(stableFloor, effective);
    var activation := s.leaves[beginIndex].begin;
    EarlierLeavesEnd(s.leaves, beginIndex);
    BoundsFit(activation, stableFloor, effective);
    var replay := if floor == 0 then activation else Min(activation, floor);
    var leafIndex := beginIndex;
    if replay < activation {
      for index := 0 to beginIndex
        invariant leafIndex == beginIndex && forall i: nat :: i < index ==> s.leaves[i].end <= replay
      {
        if s.leaves[index].end > replay {
          leafIndex := index;
          break;
        }
      }
    }
    w := w.(leafBeginIndex := leafIndex, begin := replay, editFloor := Max(activation, floor));
  }
}
