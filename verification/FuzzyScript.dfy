/** Edit scripts between a literal and an input, and the cell of the alignment matrix.

    A script turns a prefix of the literal into a prefix of the input.  Its cost is a weight and a
    number of operations, compared in that order.  `BestCell` is the recurrence the matcher fills
    its matrix with; it is proved to hold the least cost of all scripts of its lane. */
module FuzzyScript {

  type Text = seq<nat>

  // ---- Codepoints ----

  function Normalize(c: nat, caseSensitive: bool): nat {
    if !caseSensitive && 65 <= c <= 90 then c + 32 else c
  }

  predicate Same(a: nat, b: nat, caseSensitive: bool) {
    Normalize(a, caseSensitive) == Normalize(b, caseSensitive)
  }

  /** The text as it is compared: as it is, or with `A` to `Z` as `a` to `z`. */
  function Cased(text: Text, caseSensitive: bool): (r: Text)
    ensures |r| == |text|
  {
    if caseSensitive then text else seq(|text|, i requires 0 <= i < |text| => if 65 <= text[i] <= 90 then text[i] + 32 else text[i])
  }

  lemma CasedAgrees(a: Text, b: Text, i: nat, j: nat, caseSensitive: bool)
    requires i < |a| && j < |b|
    ensures Same(a[i], b[j], caseSensitive) <==> Cased(a, caseSensitive)[i] == Cased(b, caseSensitive)[j]
  {
  }

  // ---- Scripts ----

  datatype Edit = Keep | Substitute | InsertMissing | DeleteUnexpected | Transpose

  datatype Lane = AnyEdit | NoSubstitution

  datatype Cost = Cost(weight: nat, operations: nat) {
    predicate AtMost(other: Cost) {
      weight < other.weight || (weight == other.weight && operations <= other.operations)
    }

    function Plus(other: Cost): Cost {
      Cost(weight + other.weight, operations + other.operations)
    }
  }

  const INSERTION_COST := 1
  const DELETION_COST := 4
  const SUBSTITUTION_COST := 2
  const TRANSPOSITION_COST := 2

  function EditCost(e: Edit): Cost {
    match e
    case Keep => Cost(0, 0)
    case Substitute => Cost(SUBSTITUTION_COST, 1)
    case InsertMissing => Cost(INSERTION_COST, 1)
    case DeleteUnexpected => Cost(DELETION_COST, 1)
    case Transpose => Cost(TRANSPOSITION_COST, 1)
  }

  /** How many codepoints of the literal and of the input an edit covers. */
  function LiteralSpan(e: Edit): nat {
    match e case DeleteUnexpected => 0 case Transpose => 2 case _ => 1
  }

  function InputSpan(e: Edit): nat {
    match e case InsertMissing => 0 case Transpose => 2 case _ => 1
  }

  /** The edit may end at these positions. */
  predicate Fits(l: Text, t: Text, caseSensitive: bool, i: nat, j: nat, e: Edit)
    requires i <= |l| && j <= |t|
  {
    && LiteralSpan(e) <= i && InputSpan(e) <= j
    && match e
       case Keep => Same(l[i - 1], t[j - 1], caseSensitive)
       case Transpose => Same(l[i - 1], t[j - 2], caseSensitive) && Same(l[i - 2], t[j - 1], caseSensitive)
       case _ => true
  }

  predicate Allowed(lane: Lane, e: Edit) {
    lane.NoSubstitution? ==> !e.Substitute?
  }

  function Init<T>(s: seq<T>): seq<T>
    requires s != []
  {
    s[..|s| - 1]
  }

  function Last<T>(s: seq<T>): T
    requires s != []
  {
    s[|s| - 1]
  }

  /** The script turns the first `i` codepoints of the literal into the first `j` of the input. */
  predicate Turns(l: Text, t: Text, caseSensitive: bool, lane: Lane, i: nat, j: nat, script: seq<Edit>)
    requires i <= |l| && j <= |t|
    decreases |script|
  {
    if script == [] then i == 0 && j == 0
    else
      var e := Last(script);
      && Allowed(lane, e) && Fits(l, t, caseSensitive, i, j, e)
      && Turns(l, t, caseSensitive, lane, i - LiteralSpan(e), j - InputSpan(e), Init(script))
  }

  function ScriptCost(script: seq<Edit>): Cost
    decreases |script|
  {
    if script == [] then Cost(0, 0) else ScriptCost(Init(script)).Plus(EditCost(Last(script)))
  }

  function Count(script: seq<Edit>, e: Edit): nat
    decreases |script|
  {
    if script == [] then 0 else Count(Init(script), e) + (if Last(script) == e then 1 else 0)
  }

  /** The counts of a script give back its cost. */
  lemma {:induction false} CountsExplainCost(s: seq<Edit>)
    ensures ScriptCost(s).weight == Count(s, InsertMissing) * INSERTION_COST + Count(s, DeleteUnexpected) * DELETION_COST
                                    + Count(s, Substitute) * SUBSTITUTION_COST + Count(s, Transpose) * TRANSPOSITION_COST
    ensures ScriptCost(s).operations == Count(s, InsertMissing) + Count(s, DeleteUnexpected) + Count(s, Substitute) + Count(s, Transpose)
    decreases |s|
  {
    if s != [] {
      CountsExplainCost(Init(s));
    }
  }

  /** The last edit fits where the script ends, and the rest of the script ends before it. */
  lemma LastEditFits(l: Text, t: Text, caseSensitive: bool, lane: Lane, i: nat, j: nat, s: seq<Edit>)
    requires i <= |l| && j <= |t| && Turns(l, t, caseSensitive, lane, i, j, s) && s != []
    ensures LiteralSpan(Last(s)) <= i && InputSpan(Last(s)) <= j && Allowed(lane, Last(s)) && Fits(l, t, caseSensitive, i, j, Last(s))
    ensures Turns(l, t, caseSensitive, lane, i - LiteralSpan(Last(s)), j - InputSpan(Last(s)), Init(s))
  {
    hide Same;
  }

  /** The counts of a script cover both texts exactly. */
  lemma {:induction false} CountsTileTexts(l: Text, t: Text, caseSensitive: bool, lane: Lane, i: nat, j: nat, s: seq<Edit>)
    requires i <= |l| && j <= |t| && Turns(l, t, caseSensitive, lane, i, j, s)
    ensures i == Count(s, Keep) + Count(s, Substitute) + Count(s, InsertMissing) + 2 * Count(s, Transpose)
    ensures j == Count(s, Keep) + Count(s, Substitute) + Count(s, DeleteUnexpected) + 2 * Count(s, Transpose)
    ensures lane.NoSubstitution? ==> Count(s, Substitute) == 0
    decreases |s|
  {
    if s != [] {
      LastEditFits(l, t, caseSensitive, lane, i, j, s);
      hide Turns, Fits;
      var e := Last(s);
      CountsTileTexts(l, t, caseSensitive, lane, i - LiteralSpan(e), j - InputSpan(e), Init(s));
    }
  }

  // ---- Cells ----

  datatype ParentOp = NoParent | By(edit: Edit)

  /** One lane of one matrix cell; a cell nothing reaches yet holds the sentinel. */
  datatype DpCell = DpCell(operations: nat, weight: nat, parent: ParentOp) {
    function AsCost(): Cost { Cost(weight, operations) }
  }

  const NO_MATCH: nat := 0xFFFF_FFFF / 4
  const UNREACHED := DpCell(NO_MATCH, NO_MATCH, NoParent)

  /** The sizes for which costs, and five times a cost, stay within 32 bits and below the sentinel. */
  predicate FitsWord(l: Text, t: Text) {
    6 * |l| + 20 * |t| < 0x1_0000_0000
  }

  predicate IsBetterCell(a: DpCell, b: DpCell) {
    if a.weight != b.weight then a.weight < b.weight else a.operations < b.operations
  }

  predicate Reached(c: DpCell) { c.operations + 1 < NO_MATCH }

  /** A cell extended by one edit. */
  function Extended(c: DpCell, e: Edit): DpCell {
    DpCell(c.operations + EditCost(e).operations, c.weight + EditCost(e).weight, By(e))
  }

  /** A candidate cell extended by one edit replaces a cell it is strictly better than. */
  function Consider(best: DpCell, candidate: DpCell, e: Edit): (r: DpCell)
    ensures Reached(candidate) && best.operations <= NO_MATCH ==> r.AsCost().AtMost(Extended(candidate, e).AsCost()) && r.operations < NO_MATCH
    ensures Reached(candidate) && best.operations < NO_MATCH ==> r.AsCost().AtMost(best.AsCost())
    ensures r == best || r == Extended(candidate, e)
    ensures Reached(candidate) && best == UNREACHED ==> r == Extended(candidate, e)
  {
    if candidate.operations == NO_MATCH then best
    else
      var next := Extended(candidate, e);
      if best.operations == NO_MATCH || IsBetterCell(next, best) then next else best
  }

  /** One inner cell from its neighbours: diagonal, above, left, and two up the diagonal. */
  function InnerCell(lane: Lane, same: bool, crossed: bool, diagonal: DpCell, above: DpCell, left: DpCell, far: DpCell): DpCell {
    var c0 := if same then Consider(UNREACHED, diagonal, Keep) else UNREACHED;
    var c1 := if lane.AnyEdit? then Consider(c0, diagonal, Substitute) else c0;
    var c2 := Consider(c1, above, InsertMissing);
    var c3 := Consider(c2, left, DeleteUnexpected);
    if crossed then Consider(c3, far, Transpose) else c3
  }

  lemma AtMostTransitive(a: Cost, b: Cost, c: Cost)
    requires a.AtMost(b) && b.AtMost(c)
    ensures a.AtMost(c)
  {}

  /** An inner cell is one of its extended neighbours, and costs no more than any of them. */
  lemma InnerCellIsLeast(lane: Lane, same: bool, crossed: bool, diagonal: DpCell, above: DpCell, left: DpCell, far: DpCell)
    requires Reached(diagonal) && Reached(above) && Reached(left) && (crossed ==> Reached(far))
    ensures var r := InnerCell(lane, same, crossed, diagonal, above, left, far);
            && (same ==> r.AsCost().AtMost(Extended(diagonal, Keep).AsCost()))
            && (lane.AnyEdit? ==> r.AsCost().AtMost(Extended(diagonal, Substitute).AsCost()))
            && r.AsCost().AtMost(Extended(above, InsertMissing).AsCost())
            && r.AsCost().AtMost(Extended(left, DeleteUnexpected).AsCost())
            && (crossed ==> r.AsCost().AtMost(Extended(far, Transpose).AsCost()))
            && (|| (same && r == Extended(diagonal, Keep))
                || (lane.AnyEdit? && r == Extended(diagonal, Substitute))
                || r == Extended(above, InsertMissing)
                || r == Extended(left, DeleteUnexpected)
                || (crossed && r == Extended(far, Transpose)))
  {
    hide Consider, Cost.AtMost, EditCost;
    var c0 := if same then Consider(UNREACHED, diagonal, Keep) else UNREACHED;
    var c1 := if lane.AnyEdit? then Consider(c0, diagonal, Substitute) else c0;
    var c2 := Consider(c1, above, InsertMissing);
    var c3 := Consider(c2, left, DeleteUnexpected);
    var r := InnerCell(lane, same, crossed, diagonal, above, left, far);
    if crossed {
      AtMostTransitive(r.AsCost(), c3.AsCost(), Extended(left, DeleteUnexpected).AsCost());
    }
    AtMostTransitive(c3.AsCost(), c2.AsCost(), Extended(above, InsertMissing).AsCost());
    if crossed {
      AtMostTransitive(r.AsCost(), c3.AsCost(), Extended(above, InsertMissing).AsCost());
      AtMostTransitive(r.AsCost(), c3.AsCost(), c2.AsCost());
    }
    if lane.AnyEdit? {
      AtMostTransitive(c2.AsCost(), c1.AsCost(), Extended(diagonal, Substitute).AsCost());
      AtMostTransitive(r.AsCost(), c2.AsCost(), Extended(diagonal, Substitute).AsCost());
    }
    if same {
      if lane.AnyEdit? {
        AtMostTransitive(c1.AsCost(), c0.AsCost(), Extended(diagonal, Keep).AsCost());
      }
      AtMostTransitive(c2.AsCost(), c1.AsCost(), Extended(diagonal, Keep).AsCost());
      AtMostTransitive(r.AsCost(), c2.AsCost(), Extended(diagonal, Keep).AsCost());
    }
  }

  predicate Crossed(l: Text, t: Text, caseSensitive: bool, i: nat, j: nat)
    requires 0 < i <= |l| && 0 < j <= |t|
  {
    i >= 2 && j >= 2 && Same(l[i - 1], t[j - 2], caseSensitive) && Same(l[i - 2], t[j - 1], caseSensitive)
  }

  lemma InnerCellBounds(lane: Lane, same: bool, crossed: bool, diagonal: DpCell, above: DpCell, left: DpCell, far: DpCell,
                        operations: nat, weight: nat)
    requires Reached(diagonal) && Reached(above) && Reached(left) && (crossed ==> Reached(far))
    requires diagonal.operations < operations && above.operations < operations && left.operations < operations
    requires crossed ==> far.operations < operations
    requires above.weight < weight
    ensures var r := InnerCell(lane, same, crossed, diagonal, above, left, far);
            r.operations <= operations && r.weight <= weight && r.parent.By?
  {
    hide InnerCell, Consider;
    InnerCellIsLeast(lane, same, crossed, diagonal, above, left, far);
  }

  ghost function BestCell(l: Text, t: Text, caseSensitive: bool, lane: Lane, i: nat, j: nat): (c: DpCell)
    requires i <= |l| && j <= |t| && FitsWord(l, t)
    ensures c.operations <= i + j && c.weight <= i + 4 * j
    ensures c.parent.NoParent? <==> i == 0 && j == 0
    decreases i + j
  {
    if i == 0 && j == 0 then DpCell(0, 0, NoParent)
    else if i == 0 then Consider(UNREACHED, BestCell(l, t, caseSensitive, lane, i, j - 1), DeleteUnexpected)
    else if j == 0 then Consider(UNREACHED, BestCell(l, t, caseSensitive, lane, i - 1, j), InsertMissing)
    else
      var diagonal := BestCell(l, t, caseSensitive, lane, i - 1, j - 1);
      var above := BestCell(l, t, caseSensitive, lane, i - 1, j);
      var left := BestCell(l, t, caseSensitive, lane, i, j - 1);
      var far := if Crossed(l, t, caseSensitive, i, j) then BestCell(l, t, caseSensitive, lane, i - 2, j - 2) else UNREACHED;
      var same, crossed := Same(l[i - 1], t[j - 1], caseSensitive), Crossed(l, t, caseSensitive, i, j);
      InnerCellBounds(lane, same, crossed, diagonal, above, left, far, i + j, i + 4 * j);
      InnerCell(lane, same, crossed, diagonal, above, left, far)
  }

  // ---- The cell is the optimum ----

  /** The recurrence, one cell at a time. */
  lemma CellEquation(l: Text, t: Text, caseSensitive: bool, lane: Lane, i: nat, j: nat)
    requires i <= |l| && j <= |t| && FitsWord(l, t) && i + j > 0
    ensures i == 0 ==> BestCell(l, t, caseSensitive, lane, i, j) == Extended(BestCell(l, t, caseSensitive, lane, i, j - 1), DeleteUnexpected)
    ensures j == 0 ==> BestCell(l, t, caseSensitive, lane, i, j) == Extended(BestCell(l, t, caseSensitive, lane, i - 1, j), InsertMissing)
    ensures i > 0 && j > 0 ==>
              BestCell(l, t, caseSensitive, lane, i, j)
              == InnerCell(lane, Same(l[i - 1], t[j - 1], caseSensitive), Crossed(l, t, caseSensitive, i, j),
                           BestCell(l, t, caseSensitive, lane, i - 1, j - 1),
                           BestCell(l, t, caseSensitive, lane, i - 1, j),
                           BestCell(l, t, caseSensitive, lane, i, j - 1),
                           if Crossed(l, t, caseSensitive, i, j) then BestCell(l, t, caseSensitive, lane, i - 2, j - 2) else UNREACHED)
  {}

  /** A cell costs no more than any neighbour extended by a fitting edit. */
  lemma CellBoundsEveryStep(l: Text, t: Text, caseSensitive: bool, lane: Lane, i: nat, j: nat, e: Edit)
    requires i <= |l| && j <= |t| && FitsWord(l, t)
    requires Allowed(lane, e) && Fits(l, t, caseSensitive, i, j, e)
    ensures BestCell(l, t, caseSensitive, lane, i, j).AsCost().AtMost(
              Extended(BestCell(l, t, caseSensitive, lane, i - LiteralSpan(e), j - InputSpan(e)), e).AsCost())
  {
    hide BestCell, InnerCell, Consider;
    CellEquation(l, t, caseSensitive, lane, i, j);
    if i > 0 && j > 0 {
      InnerCellIsLeast(lane, Same(l[i - 1], t[j - 1], caseSensitive), Crossed(l, t, caseSensitive, i, j),
                       BestCell(l, t, caseSensitive, lane, i - 1, j - 1),
                       BestCell(l, t, caseSensitive, lane, i - 1, j),
                       BestCell(l, t, caseSensitive, lane, i, j - 1),
                       if Crossed(l, t, caseSensitive, i, j) then BestCell(l, t, caseSensitive, lane, i - 2, j - 2) else UNREACHED);
    }
  }

  /** The parent of a cell fits there, and the cell is the neighbour it names extended by it. */
  lemma CellComesFromParent(l: Text, t: Text, caseSensitive: bool, lane: Lane, i: nat, j: nat)
    requires i <= |l| && j <= |t| && FitsWord(l, t) && i + j > 0
    ensures var c := BestCell(l, t, caseSensitive, lane, i, j);
            && c.parent.By? && Allowed(lane, c.parent.edit) && Fits(l, t, caseSensitive, i, j, c.parent.edit)
            && c == Extended(BestCell(l, t, caseSensitive, lane, i - LiteralSpan(c.parent.edit), j - InputSpan(c.parent.edit)), c.parent.edit)
  {
    hide BestCell, InnerCell, Consider;
    CellEquation(l, t, caseSensitive, lane, i, j);
    if i > 0 && j > 0 {
      InnerCellIsLeast(lane, Same(l[i - 1], t[j - 1], caseSensitive), Crossed(l, t, caseSensitive, i, j),
                       BestCell(l, t, caseSensitive, lane, i - 1, j - 1),
                       BestCell(l, t, caseSensitive, lane, i - 1, j),
                       BestCell(l, t, caseSensitive, lane, i, j - 1),
                       if Crossed(l, t, caseSensitive, i, j) then BestCell(l, t, caseSensitive, lane, i - 2, j - 2) else UNREACHED);
    }
  }

  lemma ExtendedAtMost(c: DpCell, e: Edit, cost: Cost)
    requires c.AsCost().AtMost(cost)
    ensures Extended(c, e).AsCost().AtMost(cost.Plus(EditCost(e)))
  {
  }

  lemma OneMoreEdit(l: Text, t: Text, caseSensitive: bool, lane: Lane, i: nat, j: nat, e: Edit, cost: Cost)
    requires i <= |l| && j <= |t| && FitsWord(l, t) && Allowed(lane, e) && Fits(l, t, caseSensitive, i, j, e)
    requires BestCell(l, t, caseSensitive, lane, i - LiteralSpan(e), j - InputSpan(e)).AsCost().AtMost(cost)
    ensures BestCell(l, t, caseSensitive, lane, i, j).AsCost().AtMost(cost.Plus(EditCost(e)))
  {
    var from := BestCell(l, t, caseSensitive, lane, i - LiteralSpan(e), j - InputSpan(e));
    CellBoundsEveryStep(l, t, caseSensitive, lane, i, j, e);
    hide BestCell, Fits, FitsWord, Extended, EditCost, Cost.AtMost, Cost.Plus;
    ExtendedAtMost(from, e, cost);
    AtMostTransitive(BestCell(l, t, caseSensitive, lane, i, j).AsCost(), Extended(from, e).AsCost(), cost.Plus(EditCost(e)));
  }

  lemma EmptyScriptBound(l: Text, t: Text, caseSensitive: bool, lane: Lane, i: nat, j: nat)
    requires i <= |l| && j <= |t| && FitsWord(l, t) && Turns(l, t, caseSensitive, lane, i, j, [])
    ensures BestCell(l, t, caseSensitive, lane, i, j).AsCost().AtMost(ScriptCost([]))
  {
  }

  lemma CostUnfolds(script: seq<Edit>)
    requires script != []
    ensures ScriptCost(script) == ScriptCost(Init(script)).Plus(EditCost(Last(script)))
  {
  }

  /** No script of the lane costs less than the cell. */
  lemma {:induction false} CellIsLowerBound(l: Text, t: Text, caseSensitive: bool, lane: Lane, i: nat, j: nat, script: seq<Edit>)
    requires i <= |l| && j <= |t| && FitsWord(l, t) && Turns(l, t, caseSensitive, lane, i, j, script)
    ensures BestCell(l, t, caseSensitive, lane, i, j).AsCost().AtMost(ScriptCost(script))
    decreases |script|
  {
    hide BestCell, Turns, Fits, Allowed, ScriptCost, FitsWord, EditCost, Cost.AtMost, Cost.Plus, LiteralSpan, InputSpan;
    if script == [] {
      EmptyScriptBound(l, t, caseSensitive, lane, i, j);
    } else {
      LastEditFits(l, t, caseSensitive, lane, i, j, script);
      CostUnfolds(script);
      var e, rest := Last(script), Init(script);
      CellIsLowerBound(l, t, caseSensitive, lane, i - LiteralSpan(e), j - InputSpan(e), rest);
      OneMoreEdit(l, t, caseSensitive, lane, i, j, e, ScriptCost(rest));
    }
  }

  /** The script the parents spell out. */
  ghost function TraceScript(l: Text, t: Text, caseSensitive: bool, lane: Lane, i: nat, j: nat): (s: seq<Edit>)
    requires i <= |l| && j <= |t| && FitsWord(l, t)
    decreases i + j
  {
    if i + j == 0 then []
    else
      CellComesFromParent(l, t, caseSensitive, lane, i, j);
      var e := BestCell(l, t, caseSensitive, lane, i, j).parent.edit;
      TraceScript(l, t, caseSensitive, lane, i - LiteralSpan(e), j - InputSpan(e)) + [e]
  }

  /** The edit a cell came by, and the trace of the neighbour it came from. */
  lemma TraceStep(l: Text, t: Text, caseSensitive: bool, lane: Lane, i: nat, j: nat) returns (e: Edit)
    requires i <= |l| && j <= |t| && FitsWord(l, t) && i + j > 0
    ensures Allowed(lane, e) && Fits(l, t, caseSensitive, i, j, e)
    ensures LiteralSpan(e) <= i && InputSpan(e) <= j
    ensures TraceScript(l, t, caseSensitive, lane, i, j)
         == TraceScript(l, t, caseSensitive, lane, i - LiteralSpan(e), j - InputSpan(e)) + [e]
    ensures BestCell(l, t, caseSensitive, lane, i, j).parent == By(e)
    ensures BestCell(l, t, caseSensitive, lane, i, j)
         == Extended(BestCell(l, t, caseSensitive, lane, i - LiteralSpan(e), j - InputSpan(e)), e)
  {
    hide BestCell;
    CellComesFromParent(l, t, caseSensitive, lane, i, j);
    e := BestCell(l, t, caseSensitive, lane, i, j).parent.edit;
  }

  lemma TraceOrigin(l: Text, t: Text, caseSensitive: bool, lane: Lane)
    requires FitsWord(l, t)
    ensures BestCell(l, t, caseSensitive, lane, 0, 0) == DpCell(0, 0, NoParent)
    ensures Turns(l, t, caseSensitive, lane, 0, 0, []) && TraceScript(l, t, caseSensitive, lane, 0, 0) == []
    ensures ScriptCost([]) == BestCell(l, t, caseSensitive, lane, 0, 0).AsCost()
  {}

  lemma SnocScript(l: Text, t: Text, caseSensitive: bool, lane: Lane, i: nat, j: nat, s: seq<Edit>, e: Edit)
    requires i <= |l| && j <= |t| && Allowed(lane, e) && Fits(l, t, caseSensitive, i, j, e)
    requires Turns(l, t, caseSensitive, lane, i - LiteralSpan(e), j - InputSpan(e), s)
    ensures Turns(l, t, caseSensitive, lane, i, j, s + [e]) && ScriptCost(s + [e]) == ScriptCost(s).Plus(EditCost(e))
  {
    assert Init(s + [e]) == s && Last(s + [e]) == e;
  }

  /** Following the parents gives a script of the lane that costs exactly what the cell says. */
  lemma {:induction false} TraceAchievesCell(l: Text, t: Text, caseSensitive: bool, lane: Lane, i: nat, j: nat)
    requires i <= |l| && j <= |t| && FitsWord(l, t)
    ensures var s := TraceScript(l, t, caseSensitive, lane, i, j);
            && Turns(l, t, caseSensitive, lane, i, j, s)
            && ScriptCost(s) == BestCell(l, t, caseSensitive, lane, i, j).AsCost()
    decreases i + j
  {
    hide BestCell, Turns, TraceScript, ScriptCost, Fits;
    if i + j == 0 {
      TraceOrigin(l, t, caseSensitive, lane);
    } else {
      var e := TraceStep(l, t, caseSensitive, lane, i, j);
      assert InputSpan(e) + LiteralSpan(e) > 0;
      TraceAchievesCell(l, t, caseSensitive, lane, i - LiteralSpan(e), j - InputSpan(e));
      SnocScript(l, t, caseSensitive, lane, i, j, TraceScript(l, t, caseSensitive, lane, i - LiteralSpan(e), j - InputSpan(e)), e);
    }
  }

  /** The cell holds the least cost over all scripts of its lane. */
  lemma CellIsOptimal(l: Text, t: Text, caseSensitive: bool, lane: Lane, i: nat, j: nat)
    requires i <= |l| && j <= |t| && FitsWord(l, t)
    ensures exists s :: Turns(l, t, caseSensitive, lane, i, j, s) && ScriptCost(s) == BestCell(l, t, caseSensitive, lane, i, j).AsCost()
    ensures forall s :: Turns(l, t, caseSensitive, lane, i, j, s) ==>
                          BestCell(l, t, caseSensitive, lane, i, j).AsCost().AtMost(ScriptCost(s))
  {
    TraceAchievesCell(l, t, caseSensitive, lane, i, j);
    forall s | Turns(l, t, caseSensitive, lane, i, j, s)
      ensures BestCell(l, t, caseSensitive, lane, i, j).AsCost().AtMost(ScriptCost(s))
    {
      CellIsLowerBound(l, t, caseSensitive, lane, i, j, s);
    }
  }
}
