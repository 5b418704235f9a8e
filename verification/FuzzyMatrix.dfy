/** Filling the matrix with three rolling rows and one flat grid of parents, and walking it back. */
module FuzzyMatrix {
  import opened FuzzyScript

  /** Both lanes of one cell. */
  datatype DpState = DpState(anyEdit: DpCell, noSubstitution: DpCell) {
    function At(lane: Lane): DpCell { if lane.AnyEdit? then anyEdit else noSubstitution }

    predicate Reached() { FuzzyScript.Reached(anyEdit) && FuzzyScript.Reached(noSubstitution) }
  }

  /** The parents of one cell, kept for the whole grid. */
  datatype ParentTrace = ParentTrace(anyEdit: ParentOp, noSubstitution: ParentOp) {
    function At(lane: Lane): ParentOp { if lane.AnyEdit? then anyEdit else noSubstitution }
  }

  ghost function StateAt(l: Text, t: Text, caseSensitive: bool, i: nat, j: nat): (s: DpState)
    requires i <= |l| && j <= |t| && FitsWord(l, t)
  {
    DpState(BestCell(l, t, caseSensitive, AnyEdit, i, j), BestCell(l, t, caseSensitive, NoSubstitution, i, j))
  }

  ghost function TraceAt(l: Text, t: Text, caseSensitive: bool, i: nat, j: nat): ParentTrace
    requires i <= |l| && j <= |t| && FitsWord(l, t)
  {
    var s := StateAt(l, t, caseSensitive, i, j);
    ParentTrace(s.anyEdit.parent, s.noSubstitution.parent)
  }

  /** The rolling row for literal index `i` holds the first `count` states of that matrix row. */
  ghost predicate HoldsRow(ring: array2<DpState>, l: Text, t: Text, caseSensitive: bool, i: nat, count: nat)
    requires ring.Length0 == 3 && ring.Length1 == |t| + 1 && count <= |t| + 1 && i <= |l| && FitsWord(l, t)
    reads ring
  {
    forall j: nat :: j < count ==> ring[i % 3, j] == StateAt(l, t, caseSensitive, i, j)
  }

  /** The place of cell `(i, j)` in a flat grid. */
  function Flat(cols: nat, i: nat, j: nat): nat { i * cols + j }

  /** The first `count` entries of the flat grid are the parents of the cells in row order. */
  ghost predicate HoldsParents(parents: seq<ParentTrace>, l: Text, t: Text, caseSensitive: bool, count: nat)
    requires FitsWord(l, t) && count <= |parents|
  {
    forall i: nat, j: nat :: i <= |l| && j <= |t| && Flat(|t| + 1, i, j) < count ==>
      parents[Flat(|t| + 1, i, j)] == TraceAt(l, t, caseSensitive, i, j)
  }

  /** The transitions into an inner cell, in the order they are considered. */
  method ComputeInner(same: bool, crossed: bool, diagonal: DpState, above: DpState, left: DpState, far: DpState)
    returns (any: DpCell, noSub: DpCell)
    requires diagonal.Reached() && above.Reached() && left.Reached() && (crossed ==> far.Reached())
    ensures any == InnerCell(AnyEdit, same, crossed, diagonal.anyEdit, above.anyEdit, left.anyEdit, far.anyEdit)
    ensures noSub == InnerCell(NoSubstitution, same, crossed, diagonal.noSubstitution, above.noSubstitution,
                               left.noSubstitution, far.noSubstitution)
  {
    hide Consider;
    any, noSub := UNREACHED, UNREACHED;
    if same {
      any := Consider(any, diagonal.anyEdit, Keep);
      noSub := Consider(noSub, diagonal.noSubstitution, Keep);
    }
    any := Consider(any, diagonal.anyEdit, Substitute);
    any := Consider(any, above.anyEdit, InsertMissing);
    noSub := Consider(noSub, above.noSubstitution, InsertMissing);
    any := Consider(any, left.anyEdit, DeleteUnexpected);
    noSub := Consider(noSub, left.noSubstitution, DeleteUnexpected);
    if crossed {
      any := Consider(any, far.anyEdit, Transpose);
      noSub := Consider(noSub, far.noSubstitution, Transpose);
    }
  }

  method ReadState(ring: array2<DpState>, l: Text, t: Text, caseSensitive: bool, i: nat, j: nat, count: nat) returns (s: DpState)
    requires ring.Length0 == 3 && ring.Length1 == |t| + 1 && i <= |l| && j < count <= |t| + 1 && FitsWord(l, t)
    requires HoldsRow(ring, l, t, caseSensitive, i, count)
    ensures s == StateAt(l, t, caseSensitive, i, j) && s.Reached()
  {
    hide BestCell;
    s := ring[i % 3, j];
  }

  /** Anything reached replaces nothing. */
  lemma FirstOfCell(c: DpCell, e: Edit)
    requires Reached(c)
    ensures Consider(UNREACHED, c, e) == Extended(c, e)
  {
  }

  lemma CrossedIsInside(l: Text, t: Text, caseSensitive: bool, i: nat, j: nat)
    requires 0 < i <= |l| && 0 < j <= |t| && Crossed(l, t, caseSensitive, i, j)
    ensures i >= 2 && j >= 2
  {}

  /** One state from the rolling rows. */
  method ComputeState(ring: array2<DpState>, l: Text, t: Text, caseSensitive: bool, i: nat, j: nat) returns (s: DpState)
    requires ring.Length0 == 3 && ring.Length1 == |t| + 1 && i <= |l| && j <= |t| && FitsWord(l, t)
    requires HoldsRow(ring, l, t, caseSensitive, i, j)
    requires i >= 1 ==> HoldsRow(ring, l, t, caseSensitive, i - 1, |t| + 1)
    requires i >= 2 ==> HoldsRow(ring, l, t, caseSensitive, i - 2, |t| + 1)
    ensures s == StateAt(l, t, caseSensitive, i, j)
  {
    hide BestCell, InnerCell, Consider, Same, Crossed, HoldsRow, FitsWord;
    if i == 0 && j == 0 {
      TraceOrigin(l, t, caseSensitive, AnyEdit);
      TraceOrigin(l, t, caseSensitive, NoSubstitution);
      return DpState(DpCell(0, 0, NoParent), DpCell(0, 0, NoParent));
    }
    CellEquation(l, t, caseSensitive, AnyEdit, i, j);
    CellEquation(l, t, caseSensitive, NoSubstitution, i, j);
    if i == 0 {
      var left := ReadState(ring, l, t, caseSensitive, i, j - 1, j);
      FirstOfCell(left.anyEdit, DeleteUnexpected);
      FirstOfCell(left.noSubstitution, DeleteUnexpected);
      return DpState(Consider(UNREACHED, left.anyEdit, DeleteUnexpected), Consider(UNREACHED, left.noSubstitution, DeleteUnexpected));
    }
    var above := ReadState(ring, l, t, caseSensitive, i - 1, j, |t| + 1);
    if j == 0 {
      FirstOfCell(above.anyEdit, InsertMissing);
      FirstOfCell(above.noSubstitution, InsertMissing);
      return DpState(Consider(UNREACHED, above.anyEdit, InsertMissing), Consider(UNREACHED, above.noSubstitution, InsertMissing));
    }
    var diagonal := ReadState(ring, l, t, caseSensitive, i - 1, j - 1, |t| + 1);
    var left := ReadState(ring, l, t, caseSensitive, i, j - 1, j);
    var crossed := Crossed(l, t, caseSensitive, i, j);
    var far := DpState(UNREACHED, UNREACHED);
    if crossed {
      CrossedIsInside(l, t, caseSensitive, i, j);
      far := ReadState(ring, l, t, caseSensitive, i - 2, j - 2, |t| + 1);
    }
    var any, noSub := ComputeInner(Same(l[i - 1], t[j - 1], caseSensitive), crossed, diagonal, above, left, far);
    s := DpState(any, noSub);
  }

  lemma MulMonotone(a: nat, b: nat, c: nat)
    requires a <= b
    ensures a * c <= b * c
  {}

  /** Cells come in row order, no two share an entry, and a row follows the one before. */
  lemma FlatIndex(cols: nat, i: nat, j: nat, i': nat, j': nat)
    requires j < cols && j' < cols
    ensures i < i' ==> Flat(cols, i, j) < Flat(cols, i', j')
    ensures Flat(cols, i, j) == Flat(cols, i', j') ==> i == i' && j == j'
  {
    if i < i' {
      assert (i + 1) * cols <= i' * cols by { MulMonotone(i + 1, i', cols); }
    } else if i' < i {
      assert (i' + 1) * cols <= i * cols by { MulMonotone(i' + 1, i, cols); }
    }
  }

  lemma FlatSteps(cols: nat, i: nat, j: nat)
    ensures Flat(cols, i, j + 1) == Flat(cols, i, j) + 1
    ensures Flat(cols, i, cols) == Flat(cols, i + 1, 0)
  {}

  lemma FlatBound(cols: nat, rows: nat, i: nat, j: nat)
    requires i < rows && j < cols
    ensures Flat(cols, i, j) < Flat(cols, rows, 0)
  {
    FlatIndex(cols, i, j, rows, 0);
  }

  /** Writing the parents of the next cell extends the filled part of the grid by one. */
  lemma ParentsExtend(was: seq<ParentTrace>, now: seq<ParentTrace>, l: Text, t: Text, caseSensitive: bool, i: nat, j: nat)
    requires FitsWord(l, t) && i <= |l| && j <= |t| && Flat(|t| + 1, i, j) < |was|
    requires HoldsParents(was, l, t, caseSensitive, Flat(|t| + 1, i, j))
    requires now == was[Flat(|t| + 1, i, j) := TraceAt(l, t, caseSensitive, i, j)]
    ensures HoldsParents(now, l, t, caseSensitive, Flat(|t| + 1, i, j) + 1)
  {
    hide Flat, BestCell;
    forall i': nat, j': nat | i' <= |l| && j' <= |t| && Flat(|t| + 1, i', j') < Flat(|t| + 1, i, j) + 1
      ensures now[Flat(|t| + 1, i', j')] == TraceAt(l, t, caseSensitive, i', j')
    {
      FlatIndex(|t| + 1, i, j, i', j');
    }
  }

  /** One matrix row: into its rolling row, and its parents into the grid. */
  method FillRow(ring: array2<DpState>, parents: array<ParentTrace>, l: Text, t: Text, caseSensitive: bool, i: nat)
    requires ring.Length0 == 3 && ring.Length1 == |t| + 1 && i <= |l| && FitsWord(l, t)
    requires parents.Length == Flat(|t| + 1, |l| + 1, 0) && Flat(|t| + 1, i, 0) <= parents.Length
    requires i >= 1 ==> HoldsRow(ring, l, t, caseSensitive, i - 1, |t| + 1)
    requires i >= 2 ==> HoldsRow(ring, l, t, caseSensitive, i - 2, |t| + 1)
    requires HoldsParents(parents[..], l, t, caseSensitive, Flat(|t| + 1, i, 0))
    modifies ring, parents
    ensures HoldsRow(ring, l, t, caseSensitive, i, |t| + 1)
    ensures i >= 1 ==> HoldsRow(ring, l, t, caseSensitive, i - 1, |t| + 1)
    ensures Flat(|t| + 1, i + 1, 0) <= parents.Length
    ensures HoldsParents(parents[..], l, t, caseSensitive, Flat(|t| + 1, i + 1, 0))
  {
    hide BestCell, Flat, HoldsParents;
    var cols := |t| + 1;
    for j := 0 to cols
      invariant HoldsRow(ring, l, t, caseSensitive, i, j)
      invariant i >= 1 ==> HoldsRow(ring, l, t, caseSensitive, i - 1, |t| + 1)
      invariant i >= 2 ==> HoldsRow(ring, l, t, caseSensitive, i - 2, |t| + 1)
      invariant Flat(cols, i, j) <= parents.Length && HoldsParents(parents[..], l, t, caseSensitive, Flat(cols, i, j))
    {
      var s := ComputeState(ring, l, t, caseSensitive, i, j);
      ring[i % 3, j] := s;
      ghost var before := parents[..];
      FlatBound(cols, |l| + 1, i, j);
      FlatSteps(cols, i, j);
      parents[Flat(cols, i, j)] := ParentTrace(s.anyEdit.parent, s.noSubstitution.parent);
      ParentsExtend(before, parents[..], l, t, caseSensitive, i, j);
    }
    FlatSteps(cols, i, 0);
  }

  /** The whole matrix: the last rolling row holds its last row, the grid all its parents. */
  method FillMatrix(l: Text, t: Text, caseSensitive: bool) returns (ring: array2<DpState>, parents: array<ParentTrace>)
    requires FitsWord(l, t)
    ensures ring.Length0 == 3 && ring.Length1 == |t| + 1 && HoldsRow(ring, l, t, caseSensitive, |l|, |t| + 1)
    ensures parents.Length == Flat(|t| + 1, |l| + 1, 0) && HoldsParents(parents[..], l, t, caseSensitive, parents.Length)
    ensures fresh(ring) && fresh(parents)
  {
    hide BestCell;
    var rows, cols := |l| + 1, |t| + 1;
    parents := new ParentTrace[rows * cols](_ => ParentTrace(NoParent, NoParent));
    ring := new DpState[3, cols]((_, _) => DpState(UNREACHED, UNREACHED));
    for i := 0 to rows
      invariant i >= 1 ==> HoldsRow(ring, l, t, caseSensitive, i - 1, cols)
      invariant i >= 2 ==> HoldsRow(ring, l, t, caseSensitive, i - 2, cols)
      invariant Flat(cols, i, 0) <= parents.Length && HoldsParents(parents[..], l, t, caseSensitive, Flat(cols, i, 0))
    {
      FillRow(ring, parents, l, t, caseSensitive, i);
    }
  }

  // ---- The walk back ----

  /** How many edits of each kind a walk has met. */
  datatype Tally = Tally(insertions: nat, deletions: nat, substitutions: nat, transpositions: nat)

  function TallyOf(script: seq<Edit>): Tally {
    Tally(Count(script, InsertMissing), Count(script, DeleteUnexpected), Count(script, Substitute), Count(script, Transpose))
  }

  function Tallied(a: Tally, b: Tally): Tally {
    Tally(a.insertions + b.insertions, a.deletions + b.deletions, a.substitutions + b.substitutions, a.transpositions + b.transpositions)
  }

  function TallyOfEdit(e: Edit): Tally {
    match e
    case Keep => Tally(0, 0, 0, 0)
    case InsertMissing => Tally(1, 0, 0, 0)
    case DeleteUnexpected => Tally(0, 1, 0, 0)
    case Substitute => Tally(0, 0, 1, 0)
    case Transpose => Tally(0, 0, 0, 1)
  }

  /** Counts one edit and goes back over what it covers. */
  method StepBack(counts: Tally, i: nat, j: nat, e: Edit) returns (counts': Tally, i': nat, j': nat)
    requires LiteralSpan(e) <= i && InputSpan(e) <= j
    ensures counts' == Tallied(counts, TallyOfEdit(e)) && i' == i - LiteralSpan(e) && j' == j - InputSpan(e)
    ensures i' + j' < i + j
  {
    match e
    case Keep => return counts, i - 1, j - 1;
    case Substitute => return counts.(substitutions := counts.substitutions + 1), i - 1, j - 1;
    case InsertMissing => return counts.(insertions := counts.insertions + 1), i - 1, j;
    case DeleteUnexpected => return counts.(deletions := counts.deletions + 1), i, j - 1;
    case Transpose => return counts.(transpositions := counts.transpositions + 1), i - 2, j - 2;
  }

  method ReadParent(parents: array<ParentTrace>, l: Text, t: Text, caseSensitive: bool, lane: Lane, i: nat, j: nat) returns (parent: ParentOp)
    requires FitsWord(l, t) && i <= |l| && j <= |t|
    requires parents.Length == Flat(|t| + 1, |l| + 1, 0) && HoldsParents(parents[..], l, t, caseSensitive, parents.Length)
    ensures parent == BestCell(l, t, caseSensitive, lane, i, j).parent
  {
    hide BestCell, Flat;
    FlatBound(|t| + 1, |l| + 1, i, j);
    parent := parents[Flat(|t| + 1, i, j)].At(lane);
    assert parents[..][Flat(|t| + 1, i, j)] == TraceAt(l, t, caseSensitive, i, j);
  }

  lemma SnocTally(s: seq<Edit>, e: Edit)
    ensures TallyOf(s + [e]) == Tallied(TallyOf(s), TallyOfEdit(e))
  {
    assert Init(s + [e]) == s;
  }

  /** A cell's script is its neighbour's and the edit it came by. */
  lemma ParentCounts(l: Text, t: Text, caseSensitive: bool, lane: Lane, i: nat, j: nat)
    requires FitsWord(l, t) && i <= |l| && j <= |t| && i + j > 0
    ensures var parent := BestCell(l, t, caseSensitive, lane, i, j).parent;
            && parent.By? && LiteralSpan(parent.edit) <= i && InputSpan(parent.edit) <= j
            && TallyOf(TraceScript(l, t, caseSensitive, lane, i, j))
               == Tallied(TallyOf(TraceScript(l, t, caseSensitive, lane, i - LiteralSpan(parent.edit), j - InputSpan(parent.edit))),
                          TallyOfEdit(parent.edit))
  {
    hide BestCell, TraceScript, Fits, FitsWord;
    var e := TraceStep(l, t, caseSensitive, lane, i, j);
    SnocTally(TraceScript(l, t, caseSensitive, lane, i - LiteralSpan(e), j - InputSpan(e)), e);
  }

  lemma EmptyTally()
    ensures TallyOf([]) == Tally(0, 0, 0, 0)
  {}

  /** Walks the parents from `(|l|, consumed)` to the origin and counts the edits of that script. */
  method WalkBack(parents: array<ParentTrace>, l: Text, t: Text, caseSensitive: bool, lane: Lane, consumed: nat) returns (counts: Tally)
    requires FitsWord(l, t) && consumed <= |t|
    requires parents.Length == Flat(|t| + 1, |l| + 1, 0) && HoldsParents(parents[..], l, t, caseSensitive, parents.Length)
    ensures counts == TallyOf(TraceScript(l, t, caseSensitive, lane, |l|, consumed))
  {
    hide BestCell, TraceScript, Flat, TallyOf, HoldsParents, FitsWord, TallyOfEdit;
    counts := Tally(0, 0, 0, 0);
    var i: nat, j: nat := |l|, consumed;
    while i > 0 || j > 0
      invariant i <= |l| && j <= |t|
      invariant TallyOf(TraceScript(l, t, caseSensitive, lane, |l|, consumed))
             == Tallied(counts, TallyOf(TraceScript(l, t, caseSensitive, lane, i, j)))
      decreases i + j
    {
      var parent := ReadParent(parents, l, t, caseSensitive, lane, i, j);
      ParentCounts(l, t, caseSensitive, lane, i, j);
      if parent.NoParent? {
        break;
      }
      counts, i, j := StepBack(counts, i, j, parent.edit);
    }
    TraceOrigin(l, t, caseSensitive, lane);
    EmptyTally();
  }
}
