/** The strict parse context: a cursor over the text and a streaming CST builder.

    The builder is a stack of child sequences, one per open node.  A checkpoint
    keeps only the depth of that stack and the number of children at that depth,
    so a rewind truncates: it is right only while the node that was open at the
    mark is still open, which is what `Extends` says.  */
module StrictContext {

  /** A grammar element, the identity a CST node refers back to. */
  datatype Element =
    | Trivia
    | Primary
    | InfixOwner
    | Operator(index: nat)
    | Assignment(id: nat)
    | Create(id: nat)
    | Nest(id: nat)
    | Other(id: nat)

  datatype Cst =
    | Leaf(element: Element, begin: nat, end: nat, hidden: bool)
    | Node(element: Element, begin: nat, end: nat, children: seq<Cst>)

  predicate IsHidden(c: Cst) {
    c.Leaf? && c.hidden
  }

  function Relabel(c: Cst, element: Element): Cst {
    match c
    case Leaf(_, b, e, hidden) => Leaf(element, b, e, hidden)
    case Node(_, b, e, children) => Node(element, b, e, children)
  }

  /** What skipping trivia does at a position: where it stops and the hidden nodes it records. */
  datatype Skipper = Skipper(next: nat -> nat, trivia: nat -> seq<Cst>) {
    ghost predicate Valid(size: nat) {
      && (forall p: nat :: p <= size ==> p <= next(p) <= size)
      && (forall p: nat, i: nat :: i < |trivia(p)| ==> IsHidden(trivia(p)[i]))
    }
  }

  /** The observable state of a context. */
  datatype View = View(cursor: nat, lastVisible: nat, frames: seq<seq<Cst>>) {
    ghost predicate Valid() { frames != [] }

    ghost function Depth(): (d: nat)
      requires Valid()
    {
      |frames| - 1
    }

    ghost function Top(): seq<Cst>
      requires Valid()
    {
      frames[Depth()]
    }

    /** The state reached by adding nodes to the open node and moving both cursors. */
    ghost function Append(nodes: seq<Cst>, cursor': nat, lastVisible': nat): (s: View)
      requires Valid()
    {
      View(cursor', lastVisible', frames[..Depth()] + [Top() + nodes])
    }

    /** The state right after opening a node. */
    ghost function Opened(): View {
      View(cursor, lastVisible, frames + [[]])
    }
  }

  datatype Checkpoint = Checkpoint(cursor: nat, lastVisible: nat, depth: nat, count: nat)

  ghost function MarkOf(s: View): Checkpoint
    requires s.Valid()
  {
    Checkpoint(s.cursor, s.lastVisible, s.Depth(), |s.Top()|)
  }

  /** `t` was reached from `s` without closing the node open in `s` or touching what `s` holds. */
  ghost predicate Extends(s: View, t: View)
    requires s.Valid()
  {
    && |s.frames| <= |t.frames|
    && t.frames[..s.Depth()] == s.frames[..s.Depth()]
    && s.Top() <= t.frames[s.Depth()]
  }

  lemma ExtendsTransitive(a: View, b: View, c: View)
    requires a.Valid() && b.Valid() && Extends(a, b) && Extends(b, c)
    ensures Extends(a, c)
  {
    var d := a.Depth();
    assert c.frames[..d] == c.frames[..b.Depth()][..d] == b.frames[..b.Depth()][..d] == a.frames[..d];
    if d < b.Depth() {
      assert c.frames[d] == c.frames[..b.Depth()][d] == b.frames[..b.Depth()][d];
    }
  }

  lemma AppendTwice(s: View, a: seq<Cst>, b: seq<Cst>, c: nat, l: nat, c': nat, l': nat)
    requires s.Valid()
    ensures s.Append(a, c, l).Append(b, c', l') == s.Append(a + b, c', l')
  {
    var t := s.Append(a, c, l);
    assert t.Top() == s.Top() + a;
    assert t.frames[..t.Depth()] == s.frames[..s.Depth()];
    assert s.Top() + a + b == s.Top() + (a + b);
  }

  lemma AppendNothing(s: View)
    requires s.Valid()
    ensures s.Append([], s.cursor, s.lastVisible) == s
  {
    assert s.Top() + [] == s.Top();
    assert s.frames[..s.Depth()] + [s.Top()] == s.frames;
  }

  /** Adding nodes below a freshly opened node leaves everything older alone. */
  lemma OpenedAppend(s: View, t: View, nodes: seq<Cst>, c: nat, l: nat)
    requires s.Valid() && t.frames == s.frames + [nodes]
    ensures t.Valid() && Extends(s, t)
    ensures forall more: seq<Cst> :: t.Append(more, c, l) == View(c, l, s.frames + [nodes + more])
  {
    assert t.frames[..t.Depth()] == s.frames;
  }

  class ParseContext {
    var cursor: nat
    var lastVisible: nat
    var frames: seq<seq<Cst>>

    ghost predicate Valid()
      reads this
    {
      frames != []
    }

    ghost function State(): (s: View)
      reads this
      ensures Valid() ==> s.Valid()
    {
      View(cursor, lastVisible, frames)
    }

    constructor ()
      ensures Valid() && State() == View(0, 0, [[]])
    {
      cursor, lastVisible, frames := 0, 0, [[]];
    }

    method Mark() returns (cp: Checkpoint)
      requires Valid()
      ensures cp == MarkOf(State())
    {
      cp := Checkpoint(cursor, lastVisible, |frames| - 1, |frames[|frames| - 1]|);
    }

    /** Truncates back to a checkpoint; `marked` is the state the checkpoint was taken in. */
    method Rewind(cp: Checkpoint, ghost marked: View)
      requires marked.Valid() && cp == MarkOf(marked) && Extends(marked, State())
      modifies this
      ensures Valid() && State() == marked
    {
      assert frames[cp.depth][..cp.count] == marked.Top();
      assert marked.frames == marked.frames[..marked.Depth()] + [marked.Top()];
      frames := frames[..cp.depth] + [frames[cp.depth][..cp.count]];
      cursor, lastVisible := cp.cursor, cp.lastVisible;
    }

    method Enter()
      requires Valid()
      modifies this
      ensures Valid() && State() == old(State()).Opened()
      ensures Extends(old(State()), State())
    {
      frames := frames + [[]];
    }

    /** Closes the innermost open node and links it to its parent. */
    method Exit(begin: nat, element: Element)
      requires |frames| >= 2
      modifies this
      ensures Valid() && cursor == old(cursor) && lastVisible == old(lastVisible)
      ensures frames == old(frames[..|frames| - 2]) +
                        [old(frames[|frames| - 2]) + [Node(element, begin, lastVisible, old(frames[|frames| - 1]))]]
    {
      var parent := |frames| - 2;
      var node := Node(element, begin, lastVisible, frames[parent + 1]);
      frames := frames[..parent] + [frames[parent] + [node]];
    }

    method AppendLeaf(end: nat, element: Element, hidden: bool)
      requires Valid()
      modifies this
      ensures Valid()
      ensures State() == old(State()).Append([Leaf(element, old(cursor), end, hidden)], end,
                                             if hidden then old(lastVisible) else end)
    {
      var depth := |frames| - 1;
      frames := frames[..depth] + [frames[depth] + [Leaf(element, cursor, end, hidden)]];
      cursor := end;
      if !hidden {
        lastVisible := end;
      }
    }

    method Skip(skipper: Skipper)
      requires Valid()
      modifies this
      ensures Valid()
      ensures State() == old(State()).Append(skipper.trivia(old(cursor)), skipper.next(old(cursor)), old(lastVisible))
    {
      var depth := |frames| - 1;
      frames := frames[..depth] + [frames[depth] + skipper.trivia(cursor)];
      cursor := skipper.next(cursor);
    }
  }
}
