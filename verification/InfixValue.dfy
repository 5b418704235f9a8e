/** From the CST to values: the fold over a rule node's children and the builder for infix nodes.
    An assertion the source states on the shape of the CST is modelled by the result `None`. */
module InfixValue {
  import opened Options
  import opened StrictContext

  datatype Ast =
    | Operand(begin: nat, end: nat)
    | Fresh
    | Created(id: nat)
    | Nested(id: nat, inner: Ast)
    | Binary(op: nat, left: Ast, right: Ast, begin: nat, end: nat)

  function ChildrenOf(c: Cst): (cs: seq<Cst>)
    ensures forall i: nat :: i < |cs| ==> cs[i] < c
  {
    if c.Leaf? then [] else c.children
  }

  // ---- Building one infix node ----

  /** The node for an infix CST node with the given left operand. */
  function Build(node: Cst, lhs: Ast): (r: Option<Ast>)
    ensures r.Some? ==> r.value.Binary? && r.value.left == lhs
    decreases node, 1
  {
    match BuildChildren(node, 0, None, None)
    case None => None
    case Some((op, rhs)) => Some(Binary(op, lhs, rhs, node.begin, node.end))
  }

  /** The scan over the children from `i` on: first the operator, then the operand, then tails folded leftwards. */
  function BuildChildren(node: Cst, i: nat, op: Option<nat>, rhs: Option<Ast>): Option<(nat, Ast)>
    requires i <= |ChildrenOf(node)|
    decreases node, 0, |ChildrenOf(node)| - i
  {
    if i == |ChildrenOf(node)| then
      if op.Some? && rhs.Some? then Some((op.value, rhs.value)) else None
    else
      var c := ChildrenOf(node)[i];
      if IsHidden(c) then BuildChildren(node, i + 1, op, rhs)
      else if op.None? then
        if c.element.Operator? then BuildChildren(node, i + 1, Some(c.element.index), rhs) else None
      else if rhs.None? then
        if c.element.Primary? then BuildChildren(node, i + 1, op, Some(Operand(c.begin, c.end))) else None
      else if c.element.InfixOwner? then
        match Build(c, rhs.value)
        case None => None
        case Some(v) => BuildChildren(node, i + 1, op, Some(v))
      else None
  }

  method BuildTypedFromCst(node: Cst, lhs: Ast) returns (r: Option<Ast>)
    ensures r == Build(node, lhs)
    decreases node
  {
    var children := ChildrenOf(node);
    var op: Option<nat> := None;
    var rhs: Option<Ast> := None;
    for i := 0 to |children|
      invariant BuildChildren(node, 0, None, None) == BuildChildren(node, i, op, rhs)
    {
      var c := children[i];
      if IsHidden(c) {
        continue;
      }
      if op.None? {
        if !c.element.Operator? { return None; }
        op := Some(c.element.index);
        continue;
      }
      if rhs.None? {
        if !c.element.Primary? { return None; }
        rhs := Some(Operand(c.begin, c.end));
        continue;
      }
      if !c.element.InfixOwner? { return None; }
      var nested := BuildTypedFromCst(c, rhs.value);
      if nested.None? { return None; }
      rhs := nested;
    }
    if op.None? || rhs.None? { return None; }
    return Some(Binary(op.value, lhs, rhs.value, node.begin, node.end));
  }

  // ---- The fold over the children of a rule node ----

  /** An assignment seen but not yet run: which assignment, on which child. */
  datatype Pending = Pending(assignment: nat, child: nat)

  /** An assignment run on a node. */
  datatype Executed = Executed(entry: Pending, target: Ast)

  datatype FoldState = FoldState(current: Option<Ast>, pending: seq<Pending>, executed: seq<Executed>)

  function Flush(pending: seq<Pending>, target: Ast): (e: seq<Executed>)
    ensures |e| == |pending|
    ensures forall i: nat :: i < |e| ==> e[i] == Executed(pending[i], target)
  {
    seq(|pending|, i requires 0 <= i < |pending| => Executed(pending[i], target))
  }

  /** One child. */
  function FoldStep(c: Cst, i: nat, s: FoldState): Option<FoldState> {
    if IsHidden(c) then Some(s)
    else match c.element
      case Assignment(a) => Some(s.(pending := s.pending + [Pending(a, i)]))
      case Create(id) => Some(s.(current := Some(Created(id))))
      case Nest(id) =>
        var base := if s.current.None? then Fresh else s.current.value;
        Some(FoldState(Some(Nested(id, base)), [], s.executed + Flush(s.pending, base)))
      case Primary => Some(s.(current := Some(Operand(c.begin, c.end))))
      case InfixOwner =>
        if s.current.None? then None
        else
          var built := Build(c, s.current.value);
          if built.None? then None
          else Some(FoldState(built, [], s.executed + Flush(s.pending, s.current.value)))
      case _ => Some(s)
  }

  function Fold(children: seq<Cst>, i: nat, s: FoldState): Option<FoldState>
    requires i <= |children|
    decreases |children| - i
  {
    if i == |children| then Some(s)
    else match FoldStep(children[i], i, s)
      case None => None
      case Some(t) => Fold(children, i + 1, t)
  }

  const EMPTY := FoldState(None, [], [])

  /** The value of a rule node and the assignments run while building it, in order. */
  function RawValue(children: seq<Cst>): Option<(Ast, seq<Executed>)> {
    match Fold(children, 0, EMPTY)
    case None => None
    case Some(s) =>
      var last := if s.current.None? then Fresh else s.current.value;
      Some((last, s.executed + Flush(s.pending, last)))
  }

  const INLINE_ENTRIES := 8

  /** Pending assignments: eight slots in place, the rest in a vector. */
  class PendingBuffer {
    const inlineEntries: array<Pending>
    var inlineCount: nat
    var overflow: seq<Pending>

    ghost predicate Valid()
      reads this
    {
      inlineEntries.Length == INLINE_ENTRIES && inlineCount <= INLINE_ENTRIES && (overflow != [] ==> inlineCount == INLINE_ENTRIES)
    }

    ghost function Contents(): seq<Pending>
      reads this, inlineEntries
      requires Valid()
    {
      inlineEntries[..inlineCount] + overflow
    }

    constructor ()
      ensures Valid() && Contents() == [] && fresh(inlineEntries)
    {
      inlineEntries := new Pending[INLINE_ENTRIES](_ => Pending(0, 0));
      inlineCount, overflow := 0, [];
    }

    method Add(entry: Pending)
      requires Valid()
      modifies this, inlineEntries
      ensures Valid() && Contents() == old(Contents()) + [entry]
    {
      if inlineCount < inlineEntries.Length {
        inlineEntries[inlineCount] := entry;
        inlineCount := inlineCount + 1;
        return;
      }
      overflow := overflow + [entry];
    }

    /** Runs every entry on `target`, oldest first. */
    method Apply(target: Ast) returns (executed: seq<Executed>)
      requires Valid()
      ensures executed == Flush(Contents(), target)
    {
      if inlineCount == 1 && overflow == [] {
        return [Executed(inlineEntries[0], target)];
      }
      executed := [];
      for i := 0 to inlineCount
        invariant executed == Flush(inlineEntries[..i], target)
      {
        executed := executed + [Executed(inlineEntries[i], target)];
      }
      for i := 0 to |overflow|
        invariant executed == Flush(inlineEntries[..inlineCount] + overflow[..i], target)
      {
        executed := executed + [Executed(overflow[i], target)];
      }
      assert overflow[..|overflow|] == overflow;
    }

    method Clear()
      requires Valid()
      modifies this
      ensures Valid() && Contents() == []
    {
      inlineCount, overflow := 0, [];
    }
  }

  method GetRawValue(children: seq<Cst>) returns (r: Option<(Ast, seq<Executed>)>)
    ensures r == RawValue(children)
  {
    var current: Option<Ast> := None;
    var buffer := new PendingBuffer();
    var executed: seq<Executed> := [];
    for i := 0 to |children|
      invariant buffer.Valid() && fresh(buffer) && fresh(buffer.inlineEntries)
      invariant Fold(children, 0, EMPTY) == Fold(children, i, FoldState(current, buffer.Contents(), executed))
    {
      var c := children[i];
      if IsHidden(c) {
        continue;
      }
      match c.element
      case Assignment(a) =>
        buffer.Add(Pending(a, i));
      case Create(id) =>
        current := Some(Created(id));
      case Nest(id) =>
        if current.None? {
          current := Some(Fresh);
        }
        var run := buffer.Apply(current.value);
        executed := executed + run;
        buffer.Clear();
        current := Some(Nested(id, current.value));
      case Primary =>
        current := Some(Operand(c.begin, c.end));
      case InfixOwner =>
        if current.None? {
          return None;
        }
        var run := buffer.Apply(current.value);
        executed := executed + run;
        buffer.Clear();
        var built := BuildTypedFromCst(c, current.value);
        if built.None? {
          return None;
        }
        current := built;
      case _ =>
    }
    if current.None? {
      current := Some(Fresh);
    }
    var run := buffer.Apply(current.value);
    return Some((current.value, executed + run));
  }

  // ---- Every assignment runs exactly once, in source order ----

  /** The visible assignment children from `i` on. */
  function Assignments(children: seq<Cst>, i: nat): seq<Pending>
    requires i <= |children|
    decreases |children| - i
  {
    if i == |children| then []
    else if !IsHidden(children[i]) && children[i].element.Assignment?
    then [Pending(children[i].element.id, i)] + Assignments(children, i + 1)
    else Assignments(children, i + 1)
  }

  function Entries(executed: seq<Executed>): (es: seq<Pending>)
    ensures |es| == |executed|
    ensures forall i: nat :: i < |es| ==> es[i] == executed[i].entry
  {
    seq(|executed|, i requires 0 <= i < |executed| => executed[i].entry)
  }

  lemma FlushedEntries(executed: seq<Executed>, pending: seq<Pending>, target: Ast)
    ensures Entries(executed + Flush(pending, target)) == Entries(executed) + pending
  {
  }

  /** What a child adds to the assignments seen. */
  function Seen(c: Cst, i: nat): seq<Pending> {
    if !IsHidden(c) && c.element.Assignment? then [Pending(c.element.id, i)] else []
  }

  lemma StepKeepsAssignments(c: Cst, i: nat, s: FoldState)
    requires FoldStep(c, i, s).Some?
    ensures var t := FoldStep(c, i, s).value;
            Entries(t.executed) + t.pending == Entries(s.executed) + s.pending + Seen(c, i)
  {
    hide Build, Entries, Flush;
    var before := Entries(s.executed) + s.pending;
    assert before + [] == before;
    if IsHidden(c) {
    } else if c.element.Assignment? {
      assert Entries(s.executed) + (s.pending + Seen(c, i)) == before + Seen(c, i);
    } else if c.element.Nest? {
      FlushedEntries(s.executed, s.pending, if s.current.None? then Fresh else s.current.value);
      assert before + [] == before;
    } else if c.element.InfixOwner? {
      FlushedEntries(s.executed, s.pending, s.current.value);
    }
  }

  lemma {:induction false} FoldKeepsAssignments(children: seq<Cst>, i: nat, s: FoldState)
    requires i <= |children| && Fold(children, i, s).Some?
    ensures var t := Fold(children, i, s).value;
            Entries(t.executed) + t.pending == Entries(s.executed) + s.pending + Assignments(children, i)
    decreases |children| - i
  {
    hide FoldStep, Entries;
    var before := Entries(s.executed) + s.pending;
    if i < |children| {
      StepKeepsAssignments(children[i], i, s);
      FoldKeepsAssignments(children, i + 1, FoldStep(children[i], i, s).value);
      assert Assignments(children, i) == Seen(children[i], i) + Assignments(children, i + 1);
      assert before + Seen(children[i], i) + Assignments(children, i + 1) == before + (Seen(children[i], i) + Assignments(children, i + 1));
    } else {
      assert before + [] == before;
    }
  }

  /** Across Create, Nest, rule and infix children, no pending assignment is lost, repeated or reordered. */
  lemma AssignmentsRunOnce(children: seq<Cst>)
    requires RawValue(children).Some?
    ensures Entries(RawValue(children).value.1) == Assignments(children, 0)
  {
    FoldKeepsAssignments(children, 0, EMPTY);
    var s := Fold(children, 0, EMPTY).value;
    assert Entries(RawValue(children).value.1) == Entries(s.executed) + s.pending;
  }

  // ---- And on the right node ----

  function OrFresh(v: Option<Ast>): Ast { if v.Some? then v.value else Fresh }

  /** The node built by the first `n` children: the last one created or parsed, with all later nestings and infix nodes around it. */
  function NodeAfter(children: seq<Cst>, n: nat): Option<Ast>
    requires n <= |children|
  {
    if n == 0 then None
    else
      var c, before := children[n - 1], NodeAfter(children, n - 1);
      if IsHidden(c) then before
      else match c.element
        case Create(id) => Some(Created(id))
        case Primary => Some(Operand(c.begin, c.end))
        case Nest(id) => Some(Nested(id, OrFresh(before)))
        case InfixOwner => if before.Some? then Build(c, before.value) else None
        case _ => before
  }

  /** The child wraps the node built so far in another one. */
  predicate Wraps(c: Cst) { !IsHidden(c) && (c.element.Nest? || c.element.InfixOwner?) }

  /** The first wrapping child from `i` on, or the end. */
  function NextWrap(children: seq<Cst>, i: nat): (j: nat)
    requires i <= |children|
    ensures i <= j <= |children| && (j < |children| ==> Wraps(children[j])) && forall k: nat :: i <= k < j ==> !Wraps(children[k])
    decreases |children| - i
  {
    if i == |children| || Wraps(children[i]) then i else NextWrap(children, i + 1)
  }

  /** The assignment ran on the node as it was right before the next wrap after it. */
  predicate OnItsNode(children: seq<Cst>, x: Executed) {
    x.entry.child < |children| && x.target == OrFresh(NodeAfter(children, NextWrap(children, x.entry.child)))
  }

  predicate Targeted(children: seq<Cst>, i: nat, s: FoldState) {
    && i <= |children| && s.current == NodeAfter(children, i)
    && (forall x <- s.executed :: OnItsNode(children, x))
    && (forall p <- s.pending :: p.child < i && NextWrap(children, p.child) >= i)
  }

  lemma NextWrapFrom(children: seq<Cst>, a: nat, i: nat)
    requires a <= i <= |children| && NextWrap(children, a) >= i
    ensures NextWrap(children, a) == NextWrap(children, i)
    ensures i < |children| && !Wraps(children[i]) ==> NextWrap(children, a) > i
  {
  }

  lemma FlushIsTargeted(children: seq<Cst>, i: nat, s: FoldState)
    requires Targeted(children, i, s) && NextWrap(children, i) == i
    ensures forall x <- s.executed + Flush(s.pending, OrFresh(s.current)) :: OnItsNode(children, x)
  {
    hide NodeAfter, Wraps;
    forall x | x in Flush(s.pending, OrFresh(s.current))
      ensures OnItsNode(children, x)
    {
      assert x.entry in s.pending;
      NextWrapFrom(children, x.entry.child, i);
    }
  }

  lemma StepIsTargeted(children: seq<Cst>, i: nat, s: FoldState)
    requires i < |children| && Targeted(children, i, s) && FoldStep(children[i], i, s).Some?
    ensures Targeted(children, i + 1, FoldStep(children[i], i, s).value)
  {
    var t := FoldStep(children[i], i, s).value;
    hide Build, Flush, OnItsNode;
    if Wraps(children[i]) {
      FlushIsTargeted(children, i, s);
    } else {
      forall p | p in t.pending
        ensures p.child < i + 1 && NextWrap(children, p.child) >= i + 1
      {
        NextWrapFrom(children, p.child, i);
      }
    }
  }

  lemma {:induction false} FoldIsTargeted(children: seq<Cst>, i: nat, s: FoldState)
    requires Targeted(children, i, s) && Fold(children, i, s).Some?
    ensures Targeted(children, |children|, Fold(children, i, s).value)
    decreases |children| - i
  {
    assert i <= |children|;
    hide Targeted, FoldStep;
    if i < |children| {
      StepIsTargeted(children, i, s);
      FoldIsTargeted(children, i + 1, FoldStep(children[i], i, s).value);
    }
  }

  /** Every assignment runs on the node built by the children before it and up to the next nesting or infix node,
      which wraps that node afterwards; and the value is the node all children build. */
  lemma AssignmentsRunOnTheirNode(children: seq<Cst>)
    requires RawValue(children).Some?
    ensures RawValue(children).value.0 == OrFresh(NodeAfter(children, |children|))
    ensures forall x <- RawValue(children).value.1 :: OnItsNode(children, x)
  {
    FoldIsTargeted(children, 0, EMPTY);
    FlushIsTargeted(children, |children|, Fold(children, 0, EMPTY).value);
  }
}
