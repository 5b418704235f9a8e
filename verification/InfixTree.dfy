/** The strict tail and the value builder together yield the one tree that precedence and
    associativity allow over the greedy chain of links. */
module InfixTree {
  import opened Options
  import opened StrictContext
  import opened InfixRule
  import opened InfixValue

  // ---- The specification: greedy chains and well-shaped trees ----

  /** The longest chain of links from `p`, ignoring precedence altogether. */
  ghost function Chain(g: InfixGrammar, p: nat): seq<Link>
    requires g.Valid() && p <= |g.text|
    decreases |g.text| - p
  {
    LinkAdvances(g, p);
    match NextLink(g, p)
    case None => []
    case Some(link) => [link] + Chain(g, link.next)
  }

  datatype Token = OperandToken(begin: nat, end: nat) | OperatorToken(op: nat)

  function LinkTokens(links: seq<Link>): seq<Token> {
    if links == [] then []
    else [OperatorToken(links[0].op), OperandToken(links[0].operand.begin, links[0].operand.end)] + LinkTokens(links[1..])
  }

  /** The in-order reading of a tree. */
  function Yield(t: Ast): (y: seq<Token>) {
    match t
    case Operand(b, e) => [OperandToken(b, e)]
    case Binary(op, l, r, _, _) => Yield(l) + [OperatorToken(op)] + Yield(r)
    case _ => []
  }

  /** The root binds at least as tightly as `min`. */
  predicate Binds(g: InfixGrammar, t: Ast, min: nat) {
    t.Binary? ==> t.op < |g.operators| && g.Precedence(t.op) >= min
  }

  /** Left-associative nodes take a looser-or-equal operator only on their left, right-associative ones only on their right. */
  predicate WellShaped(g: InfixGrammar, t: Ast) {
    match t
    case Operand(_, _) => true
    case Binary(op, l, r, _, _) =>
      && op < |g.operators|
      && WellShaped(g, l) && WellShaped(g, r)
      && (var p := g.Precedence(op);
          if g.operators[op].associativity.Left?
          then Binds(g, l, p) && Binds(g, r, p + 1)
          else Binds(g, l, p + 1) && Binds(g, r, p))
    case _ => false
  }

  function Begin(t: Ast): nat { if t.Operand? || t.Binary? then t.begin else 0 }
  function End(t: Ast): nat { if t.Operand? || t.Binary? then t.end else 0 }

  /** Every node spans from its leftmost operand to its rightmost one. */
  predicate Spans(t: Ast) {
    t.Binary? ==> Spans(t.left) && Spans(t.right) && t.begin == Begin(t.left) && t.end == End(t.right)
  }

  /** The shape in terms of the order of declaration, tightest first: below a left-associative operator an equal one may
      stand on the left only, below a right-associative one on the right only, and nothing declared later stands below. */
  predicate ShapedAsDeclared(operators: seq<InfixOperator>, t: Ast) {
    match t
    case Operand(_, _) => true
    case Binary(op, l, r, _, _) =>
      && op < |operators| && ShapedAsDeclared(operators, l) && ShapedAsDeclared(operators, r)
      && (l.Binary? ==> l.op < op || (l.op == op && operators[op].associativity == Left))
      && (r.Binary? ==> r.op < op || (r.op == op && operators[op].associativity == Right))
    case _ => false
  }

  /** Precedence and declaration order say the same of a tree. */
  lemma {:induction false} ShapeIsDeclared(g: InfixGrammar, t: Ast)
    ensures WellShaped(g, t) <==> ShapedAsDeclared(g.operators, t)
    decreases t
  {
    if t.Binary? {
      ShapeIsDeclared(g, t.left);
      ShapeIsDeclared(g, t.right);
    }
  }

  /** Operator `i` is at `p` and ends at `end`. */
  ghost predicate OperatorAt(g: InfixGrammar, i: nat, p: nat, end: nat)
    requires i < |g.operators|
  {
    match g.operators[i].element
    case SingleLiteral(lit, caseSensitive) => LiteralMatches(g, lit, caseSensitive, p) && end == p + |lit|
    case Composite(probe, parse, _) => probe(p) && parse(p).Match? && end == parse(p).end
  }

  /** Operator `i` is at `p`, and it is the first one there that is not shadowed. */
  ghost predicate FirstAt(g: InfixGrammar, i: nat, p: nat, end: nat)
    requires i < |g.operators|
  {
    && OperatorAt(g, i, p, end) && !Shadowed(g, i, p)
    && forall k: nat, e: nat :: k < i && OperatorAt(g, k, p, e) ==> Shadowed(g, k, p)
  }

  /** The tokens are what the text holds from `p` to `q`: operators and operands in turn, trivia after each. */
  ghost predicate Reads(g: InfixGrammar, p: nat, tokens: seq<Token>, q: nat)
    decreases |tokens|
  {
    if tokens == [] then p == q
    else
      && |tokens| >= 2 && tokens[0].OperatorToken? && tokens[0].op < |g.operators| && tokens[1].OperandToken?
      && exists end: nat ::
           && FirstAt(g, tokens[0].op, p, end)
           && tokens[1].begin == g.skipper.next(end)
           && g.primary(tokens[1].begin).Match? && tokens[1].end == g.primary(tokens[1].begin).visibleEnd
           && Reads(g, g.skipper.next(g.primary(tokens[1].begin).end), tokens[2..], q)
  }

  /** No operator and operand follow at `p`. */
  ghost predicate EndsAt(g: InfixGrammar, p: nat) {
    forall i: nat, end: nat :: i < |g.operators| && FirstAt(g, i, p, end) ==> g.primary(g.skipper.next(end)).NoMatch?
  }

  lemma MatchIsAt(g: InfixGrammar, i: nat, p: nat, end: nat)
    requires i < |g.operators|
    ensures OperatorAt(g, i, p, end) <==> OperatorMatch(g, i, p).Match? && OperatorMatch(g, i, p).end == end
  {
  }

  lemma UsableIsThere(g: InfixGrammar, i: nat, p: nat)
    requires i < |g.operators|
    ensures Usable(g, i, p) <==> (exists end: nat :: OperatorAt(g, i, p, end)) && !Shadowed(g, i, p)
  {
    if OperatorMatch(g, i, p).Match? {
      MatchIsAt(g, i, p, OperatorMatch(g, i, p).end);
    }
  }

  lemma FirstUsable(g: InfixGrammar, i: nat, p: nat)
    requires i < |g.operators|
    ensures SelectFrom(g, 0, p) == Some(i) <==> Usable(g, i, p) && forall k: nat :: k < i ==> !Usable(g, k, p)
  {
    hide Usable;
    var s := SelectFrom(g, 0, p);
    assert s.Some? ==> Usable(g, s.value, p);
  }

  lemma SelectedIsFirst(g: InfixGrammar, i: nat, p: nat, end: nat)
    requires i < |g.operators|
    ensures FirstAt(g, i, p, end) <==> SelectFrom(g, 0, p) == Some(i) && OperatorMatch(g, i, p).end == end
  {
    hide OperatorAt, OperatorMatch, Shadowed, SelectFrom;
    MatchIsAt(g, i, p, end);
    UsableIsThere(g, i, p);
    FirstUsable(g, i, p);
    forall k: nat | k < i
      ensures !Usable(g, k, p) <==> forall e: nat :: OperatorAt(g, k, p, e) ==> Shadowed(g, k, p)
    {
      UsableIsThere(g, k, p);
    }
  }

  /** Where the chain from `p` ends. */
  ghost function ChainEnd(g: InfixGrammar, p: nat): (q: nat)
    requires g.Valid() && p <= |g.text|
    ensures q <= |g.text|
    decreases |g.text| - p
  {
    LinkAdvances(g, p);
    match NextLink(g, p)
    case None => p
    case Some(link) => ChainEnd(g, link.next)
  }

  /** A tail stops somewhere on the chain. */
  lemma {:induction false} TailStaysOnChain(g: InfixGrammar, min: nat, p: nat, visible: nat, lhsStart: nat)
    requires g.Valid() && p <= |g.text|
    ensures ChainEnd(g, Tail(g, min, p, visible, lhsStart).cursor) == ChainEnd(g, p)
    decreases |g.text| - p
  {
    LinkAdvances(g, p);
    var step := TailStep(g, min, p, lhsStart);
    if step.Some? {
      var link := NextLink(g, p).value;
      var inner := Tail(g, g.NextMinPrecedence(link.op), link.next, link.operand.end, link.operand.begin);
      TailStaysOnChain(g, g.NextMinPrecedence(link.op), link.next, link.operand.end, link.operand.begin);
      TailStaysOnChain(g, min, inner.cursor, inner.lastVisible, lhsStart);
    }
  }

  /** The chain is what the text holds, and it is as long as can be. */
  lemma {:induction false} ChainReads(g: InfixGrammar, p: nat)
    requires g.Valid() && p <= |g.text|
    ensures Reads(g, p, LinkTokens(Chain(g, p)), ChainEnd(g, p)) && EndsAt(g, ChainEnd(g, p))
    decreases |g.text| - p
  {
    LinkAdvances(g, p);
    hide FirstAt, InfixGrammar.Valid;
    match NextLink(g, p)
    case None =>
      forall i: nat, end: nat | i < |g.operators| && FirstAt(g, i, p, end)
        ensures g.primary(g.skipper.next(end)).NoMatch?
      {
        SelectedIsFirst(g, i, p, end);
      }
    case Some(link) =>
      ChainReads(g, link.next);
      var end := OperatorMatch(g, link.op, p).end;
      SelectedIsFirst(g, link.op, p, end);
      var tokens := LinkTokens(Chain(g, p));
      assert tokens == [OperatorToken(link.op), OperandToken(link.operand.begin, link.operand.end)] + LinkTokens(Chain(g, link.next)) by {
        assert Chain(g, p)[1..] == Chain(g, link.next);
      }
      assert tokens[2..] == LinkTokens(Chain(g, link.next));
  }

  // ---- Folding what the tail appended ----

  /** The infix children from `i` on, folded onto a left operand. */
  function FoldInfix(nodes: seq<Cst>, lhs: Ast): Option<Ast> {
    if nodes == [] then Some(lhs)
    else if IsHidden(nodes[0]) then FoldInfix(nodes[1..], lhs)
    else if nodes[0].element.InfixOwner? then
      var v := Build(nodes[0], lhs);
      if v.None? then None else FoldInfix(nodes[1..], v.value)
    else None
  }

  ghost predicate AllHidden(nodes: seq<Cst>) {
    forall i: nat :: i < |nodes| ==> IsHidden(nodes[i])
  }

  lemma {:induction false} FoldInfixSplit(a: seq<Cst>, b: seq<Cst>, lhs: Ast)
    ensures FoldInfix(a + b, lhs) == (var v := FoldInfix(a, lhs); if v.None? then None else FoldInfix(b, v.value))
  {
    if a == [] {
      assert a + b == b;
    } else {
      assert (a + b)[1..] == a[1..] + b;
      if IsHidden(a[0]) {
        FoldInfixSplit(a[1..], b, lhs);
      } else if a[0].element.InfixOwner? && Build(a[0], lhs).Some? {
        FoldInfixSplit(a[1..], b, Build(a[0], lhs).value);
      }
    }
  }

  lemma {:induction false} FoldInfixHidden(nodes: seq<Cst>, lhs: Ast)
    requires AllHidden(nodes)
    ensures FoldInfix(nodes, lhs) == Some(lhs)
  {
    if nodes != [] {
      FoldInfixHidden(nodes[1..], lhs);
    }
  }

  /** Past the operator and the operand, the builder's scan is that same fold. */
  lemma {:induction false} BuildIsFold(node: Cst, i: nat, op: nat, rhs: Ast)
    requires i <= |ChildrenOf(node)| && FoldInfix(ChildrenOf(node)[i..], rhs).Some?
    ensures BuildChildren(node, i, Some(op), Some(rhs)) == Some((op, FoldInfix(ChildrenOf(node)[i..], rhs).value))
    decreases |ChildrenOf(node)| - i
  {
    var nodes := ChildrenOf(node)[i..];
    if nodes != [] {
      assert nodes[1..] == ChildrenOf(node)[i + 1..];
      var next := if IsHidden(nodes[0]) then rhs else Build(nodes[0], rhs).value;
      BuildIsFold(node, i + 1, op, next);
    }
  }

  lemma {:induction false} BuildSkipsHidden(node: Cst, i: nat, count: nat, op: Option<nat>, rhs: Option<Ast>)
    requires i + count <= |ChildrenOf(node)| && AllHidden(ChildrenOf(node)[i..i + count])
    ensures BuildChildren(node, i, op, rhs) == BuildChildren(node, i + count, op, rhs)
    decreases count
  {
    if count > 0 {
      assert IsHidden(ChildrenOf(node)[i..i + count][0]);
      assert ChildrenOf(node)[i + 1..i + 1 + (count - 1)] == ChildrenOf(node)[i..i + count][1..];
      BuildSkipsHidden(node, i + 1, count - 1, op, rhs);
    }
  }

  /** What a link's nodes are: the operator, hidden trivia, the operand, hidden trivia. */
  lemma LinkNodes(g: InfixGrammar, p: nat)
    requires g.Valid() && NextLink(g, p).Some?
    ensures var link := NextLink(g, p).value;
            && link.Nodes() == [link.opNode] + link.gap + [link.operand] + link.trail
            && AllHidden(link.gap) && AllHidden(link.trail)
            && !IsHidden(link.opNode) && link.opNode.element == Operator(link.op)
            && !IsHidden(link.operand) && link.operand.element == Primary
  {
  }

  /** A node made of a link and tighter tails builds the binary node over their fold. */
  lemma BuildLink(g: InfixGrammar, p: nat, node: Cst, inner: seq<Cst>, lhs: Ast)
    requires g.Valid() && NextLink(g, p).Some?
    requires node.Node? && node.children == NextLink(g, p).value.Nodes() + inner
    requires var link := NextLink(g, p).value;
             FoldInfix(inner, Operand(link.operand.begin, link.operand.end)).Some?
    ensures var link := NextLink(g, p).value;
            Build(node, lhs) == Some(Binary(link.op, lhs, FoldInfix(inner, Operand(link.operand.begin, link.operand.end)).value,
                                            node.begin, node.end))
  {
    hide NextLink, FoldInfix;
    var link := NextLink(g, p).value;
    LinkNodes(g, p);
    var children := ChildrenOf(node);
    var rhs := Operand(link.operand.begin, link.operand.end);
    var a, b := |link.gap|, |link.trail|;
    assert children[0] == link.opNode;
    assert children[1..1 + a] == link.gap;
    BuildSkipsHidden(node, 1, a, Some(link.op), None);
    assert children[1 + a] == link.operand;
    assert children[2 + a..2 + a + b] == link.trail;
    BuildSkipsHidden(node, 2 + a, b, Some(link.op), Some(rhs));
    assert children[2 + a + b..] == inner;
    BuildIsFold(node, 2 + a + b, link.op, rhs);
  }

  // ---- Precedence climbing is right ----

  /** The next link, if any, binds less tightly than `min`. */
  ghost predicate StopsAt(g: InfixGrammar, p: nat, min: nat)
    requires g.Valid() && p <= |g.text|
  {
    LinkAdvances(g, p);
    NextLink(g, p).Some? ==> g.Precedence(NextLink(g, p).value.op) < min
  }

  /** A left operand a tail may start from. */
  ghost predicate Ready(g: InfixGrammar, min: nat, p: nat, visible: nat, lhsStart: nat, lhs: Ast)
    requires g.Valid() && p <= |g.text|
  {
    && WellShaped(g, lhs) && Binds(g, lhs, min)
    && Spans(lhs) && Begin(lhs) == lhsStart && End(lhs) == visible
    && (lhs.Binary? ==> StopsAt(g, p, g.NextMinPrecedence(lhs.op)))
  }

  /** What folding the nodes of a tail gives: the shape, the spans and the tokens are kept, and
      the tail stopped only before a link that binds less tightly than its bound. */
  ghost predicate Folds(g: InfixGrammar, min: nat, p: nat, lhsStart: nat, lhs: Ast, r: TailResult)
    requires g.Valid() && p <= |g.text| && r.cursor <= |g.text|
  {
    var v := FoldInfix(r.nodes, lhs);
    && v.Some? && WellShaped(g, v.value) && Binds(g, v.value, min)
    && Spans(v.value) && Begin(v.value) == lhsStart && End(v.value) == r.lastVisible
    && Yield(v.value) + LinkTokens(Chain(g, r.cursor)) == Yield(lhs) + LinkTokens(Chain(g, p))
    && StopsAt(g, r.cursor, min)
  }

  /** The node built from one link is a left operand the tail may go on from. */
  lemma TreeReady(g: InfixGrammar, min: nat, p: nat, visible: nat, lhsStart: nat, lhs: Ast, tree: Ast, inner: TailResult)
    requires g.Valid() && p <= |g.text| && inner.cursor <= |g.text| && Ready(g, min, p, visible, lhsStart, lhs)
    requires NextLink(g, p).Some? && g.Precedence(NextLink(g, p).value.op) >= min
    requires var link := NextLink(g, p).value;
             var operand := Operand(link.operand.begin, link.operand.end);
             && link.next <= |g.text|
             && Folds(g, g.NextMinPrecedence(link.op), link.next, link.operand.begin, operand, inner)
             && tree == Binary(link.op, lhs, FoldInfix(inner.nodes, operand).value, lhsStart, inner.lastVisible)
    ensures Ready(g, min, inner.cursor, inner.lastVisible, lhsStart, tree)
  {}

  lemma ChainTokens(g: InfixGrammar, p: nat)
    requires g.Valid() && p <= |g.text| && NextLink(g, p).Some? && NextLink(g, p).value.next <= |g.text|
    ensures var link := NextLink(g, p).value;
            LinkTokens(Chain(g, p)) == [OperatorToken(link.op), OperandToken(link.operand.begin, link.operand.end)]
                                       + LinkTokens(Chain(g, link.next))
  {
    var link := NextLink(g, p).value;
    var rest := Chain(g, link.next);
    assert Chain(g, p) == [link] + rest;
    assert Chain(g, p)[1..] == rest;
  }

  lemma Regroup(l: seq<Token>, op: Token, r: seq<Token>, after: seq<Token>, operand: Token, rest: seq<Token>)
    requires r + after == [operand] + rest
    ensures l + [op] + r + after == l + ([op, operand] + rest)
  {
    assert l + [op] + r + after == l + [op] + (r + after);
    assert [op] + ([operand] + rest) == [op, operand] + rest;
  }

  lemma StepKeepsTokens(op: nat, begin: nat, end: nat, tree: Ast, after: seq<Token>, rest: seq<Token>)
    requires tree.Binary? && tree.op == op && Yield(tree.right) + after == Yield(Operand(begin, end)) + rest
    ensures Yield(tree) + after == Yield(tree.left) + ([OperatorToken(op), OperandToken(begin, end)] + rest)
  {
    Regroup(Yield(tree.left), OperatorToken(op), Yield(tree.right), after, OperandToken(begin, end), rest);
  }

  lemma {:induction false} TailFolds(g: InfixGrammar, min: nat, p: nat, visible: nat, lhsStart: nat, lhs: Ast)
    requires g.Valid() && p <= |g.text|
    requires Ready(g, min, p, visible, lhsStart, lhs)
    ensures Folds(g, min, p, lhsStart, lhs, Tail(g, min, p, visible, lhsStart))
    decreases |g.text| - p
  {
    LinkAdvances(g, p);
    var step := TailStep(g, min, p, lhsStart);
    if step.Some? {
      var link := NextLink(g, p).value;
      var next := g.NextMinPrecedence(link.op);
      var operand := Operand(link.operand.begin, link.operand.end);
      var inner := Tail(g, next, link.next, link.operand.end, link.operand.begin);
      TailFolds(g, next, link.next, link.operand.end, link.operand.begin, operand);
      var rhs := FoldInfix(inner.nodes, operand).value;
      var node := step.value.nodes[0];
      var tree := Binary(link.op, lhs, rhs, lhsStart, inner.lastVisible);
      assert Build(node, lhs) == Some(tree) by { BuildLink(g, p, node, inner.nodes, lhs); }
      TreeReady(g, min, p, visible, lhsStart, lhs, tree, inner);
      var rest := Tail(g, min, inner.cursor, inner.lastVisible, lhsStart);
      TailFolds(g, min, inner.cursor, inner.lastVisible, lhsStart, tree);
      assert FoldInfix([node] + rest.nodes, lhs) == FoldInfix(rest.nodes, tree) by {
        assert ([node] + rest.nodes)[1..] == rest.nodes;
      }
      ChainTokens(g, p);
      StepKeepsTokens(link.op, link.operand.begin, link.operand.end, tree, LinkTokens(Chain(g, inner.cursor)), LinkTokens(Chain(g, link.next)));
    }
  }

  // ---- Uniqueness ----

  /** Every operator of a well-shaped tree binds at least as tightly as its root. */
  lemma {:induction false} RootIsLoosest(g: InfixGrammar, t: Ast, min: nat, i: nat)
    requires WellShaped(g, t) && Binds(g, t, min) && i < |Yield(t)| && Yield(t)[i].OperatorToken?
    ensures Yield(t)[i].op < |g.operators| && g.Precedence(Yield(t)[i].op) >= min
  {
    match t
    case Binary(op, l, r, _, _) =>
      var p := g.Precedence(op);
      if i < |Yield(l)| {
        RootIsLoosest(g, l, p, i);
      } else if i > |Yield(l)| {
        RootIsLoosest(g, r, p, i - |Yield(l)| - 1);
      }
    case _ =>
  }

  /** If `a` may stand to the left of `b`, then `b` may not stand to the right of `a`. */
  lemma LooserAfterTighter(g: InfixGrammar, a: nat, b: nat)
    requires a < |g.operators| && b < |g.operators|
    requires g.Precedence(a) >= if g.operators[b].associativity.Left? then g.Precedence(b) else g.Precedence(b) + 1
    ensures g.Precedence(b) < g.NextMinPrecedence(a)
  {
  }

  lemma RootBinds(g: InfixGrammar, t: Ast)
    requires WellShaped(g, t) && t.Binary?
    ensures t.op < |g.operators| && WellShaped(g, t.left) && WellShaped(g, t.right)
    ensures Binds(g, t.left, if g.operators[t.op].associativity.Left? then g.Precedence(t.op) else g.Precedence(t.op) + 1)
    ensures Binds(g, t.right, g.NextMinPrecedence(t.op))
  {
  }

  /** Where the tokens of a binary tree come from. */
  lemma YieldParts(t: Ast, i: nat)
    requires t.Binary? && i < |Yield(t)|
    ensures var k := |Yield(t.left)|;
            && |Yield(t)| == k + 1 + |Yield(t.right)| && Yield(t)[k] == OperatorToken(t.op)
            && (i < k ==> Yield(t)[i] == Yield(t.left)[i])
            && (i > k ==> Yield(t)[i] == Yield(t.right)[i - k - 1])
  {
  }

  /** An operator of the left subtree binds as tightly as the root lets it. */
  lemma LeftOfRoot(g: InfixGrammar, t: Ast, i: nat)
    requires WellShaped(g, t) && t.Binary? && i < |Yield(t.left)| && i < |Yield(t)| && Yield(t)[i].OperatorToken?
    ensures t.op < |g.operators| && Yield(t)[i].op < |g.operators|
    ensures g.Precedence(Yield(t)[i].op) >= if g.operators[t.op].associativity.Left? then g.Precedence(t.op) else g.Precedence(t.op) + 1
  {
    YieldParts(t, i);
    RootBinds(g, t);
    hide Yield, WellShaped;
    RootIsLoosest(g, t.left, if g.operators[t.op].associativity.Left? then g.Precedence(t.op) else g.Precedence(t.op) + 1, i);
  }

  lemma RightOfRoot(g: InfixGrammar, t: Ast, i: nat)
    requires WellShaped(g, t) && t.Binary? && |Yield(t.left)| < i < |Yield(t)| && Yield(t)[i].OperatorToken?
    ensures t.op < |g.operators| && Yield(t)[i].op < |g.operators|
    ensures g.Precedence(Yield(t)[i].op) >= g.NextMinPrecedence(t.op)
  {
    YieldParts(t, i);
    RootBinds(g, t);
    hide Yield, WellShaped;
    RootIsLoosest(g, t.right, g.NextMinPrecedence(t.op), i - |Yield(t.left)| - 1);
  }

  /** A left operand of a well-shaped node is never shorter than that of another tree over the same tokens. */
  lemma RootsAgree(g: InfixGrammar, s: Ast, t: Ast)
    requires WellShaped(g, s) && WellShaped(g, t) && s.Binary? && t.Binary? && Yield(s) == Yield(t)
    ensures |Yield(s.left)| >= |Yield(t.left)|
  {
    if |Yield(s.left)| < |Yield(t.left)| {
      YieldParts(s, |Yield(t.left)|);
      YieldParts(t, |Yield(s.left)|);
      hide Yield, WellShaped, InfixGrammar.Precedence, InfixGrammar.NextMinPrecedence;
      LeftOfRoot(g, t, |Yield(s.left)|);
      LooserAfterTighter(g, s.op, t.op);
      RightOfRoot(g, s, |Yield(t.left)|);
    }
  }

  lemma {:induction false} YieldIsOperand(g: InfixGrammar, t: Ast)
    requires WellShaped(g, t)
    ensures Yield(t) != [] && (|Yield(t)| == 1 <==> t.Operand?)
  {
    if t.Binary? {
      YieldIsOperand(g, t.left);
      YieldIsOperand(g, t.right);
    }
  }

  /** Two well-shaped trees with true spans over the same tokens are the same tree. */
  lemma {:induction false} TreeIsUnique(g: InfixGrammar, s: Ast, t: Ast)
    requires WellShaped(g, s) && WellShaped(g, t) && Spans(s) && Spans(t) && Yield(s) == Yield(t)
    ensures s == t
  {
    if s.Binary? && t.Binary? {
      RootsAgree(g, s, t);
      RootsAgree(g, t, s);
      var k := |Yield(s.left)|;
      assert Yield(s.left) == Yield(s)[..k] == Yield(t.left);
      assert Yield(s.right) == Yield(s)[k + 1..] == Yield(t.right);
      assert Yield(s)[k] == OperatorToken(s.op) && Yield(t)[k] == OperatorToken(t.op);
      TreeIsUnique(g, s.left, t.left);
      TreeIsUnique(g, s.right, t.right);
    } else {
      YieldIsOperand(g, s);
      YieldIsOperand(g, t);
    }
  }

  // ---- The rule, end to end ----

  /** The rule-node fold over an operand and infix nodes is the same fold again. */
  lemma {:induction false} RuleFold(children: seq<Cst>, i: nat, s: FoldState)
    requires 0 < i <= |children| && s.pending == [] && s.current.Some? && FoldInfix(children[i..], s.current.value).Some?
    ensures Fold(children, i, s) == Some(s.(current := FoldInfix(children[i..], s.current.value)))
    decreases |children| - i
  {
    if i < |children| {
      var c := children[i..][0];
      assert children[i..][1..] == children[i + 1..];
      var t := FoldStep(children[i], i, s).value;
      assert t.executed == s.executed;
      RuleFold(children, i + 1, t);
    }
  }

  lemma RuleValue(first: Cst, operand: Ast, trivia: seq<Cst>, tail: seq<Cst>)
    requires !IsHidden(first) && first.element == Primary && operand == Operand(first.begin, first.end)
    requires AllHidden(trivia) && FoldInfix(tail, operand).Some?
    ensures RawValue([first] + trivia + tail) == Some((FoldInfix(tail, operand).value, []))
  {
    var nodes := [first] + trivia + tail;
    assert nodes[1..] == trivia + tail;
    FoldInfixHidden(trivia, operand);
    FoldInfixSplit(trivia, tail, operand);
    hide FoldInfix;
    var s := FoldState(Some(operand), [], []);
    assert nodes[0] == first && FoldStep(first, 0, EMPTY) == Some(s);
    RuleFold(nodes, 1, s);
    assert Fold(nodes, 0, EMPTY) == Fold(nodes, 1, s);
    assert [] + Flush([], FoldInfix(tail, operand).value) == [];
  }

  /** The value of a successful rule is its tail folded onto its first operand. */
  lemma RuleFolds(g: InfixGrammar, p: nat)
    requires g.Valid() && p <= |g.text| && RuleResult(g, p).Some?
    ensures var m := g.primary(p);
            && m.Match? && m.end <= |g.text| && g.skipper.next(m.end) <= |g.text|
            && (var r := RuleResult(g, p).value;
                var tail := Tail(g, 0, g.skipper.next(m.end), m.visibleEnd, p);
                var v := FoldInfix(tail.nodes, Operand(p, m.visibleEnd));
                && r.cursor == tail.cursor && r.lastVisible == tail.lastVisible && NextLink(g, r.cursor).None?
                && v.Some? && RawValue(r.nodes) == Some((v.value, []))
                && WellShaped(g, v.value) && Spans(v.value) && Begin(v.value) == p && End(v.value) == tail.lastVisible
                && Yield(v.value) == [OperandToken(p, m.visibleEnd)] + LinkTokens(Chain(g, g.skipper.next(m.end))))
  {
    var m := g.primary(p);
    assert g.Advances(p, m);
    var from := g.skipper.next(m.end);
    var operand := Operand(p, m.visibleEnd);
    var tail := Tail(g, 0, from, m.visibleEnd, p);
    var trivia := g.skipper.trivia(m.end);
    TailFolds(g, 0, from, m.visibleEnd, p, operand);
    hide Tail, TailStep;
    RuleValue(OperandNode(p, m), operand, trivia, tail.nodes);
    var tree := FoldInfix(tail.nodes, operand).value;
    assert Chain(g, tail.cursor) == [] && LinkTokens([]) == [];
    assert Yield(tree) + [] == Yield(tree);
  }

  /** What follows the first operand is the chain, and the rule stops at its end. */
  lemma RuleReads(g: InfixGrammar, p: nat)
    requires g.Valid() && p <= |g.text| && RuleResult(g, p).Some?
    ensures var m := g.primary(p);
            && m.Match? && m.end <= |g.text| && g.skipper.next(m.end) <= |g.text|
            && (var r := RuleResult(g, p).value;
                Reads(g, g.skipper.next(m.end), LinkTokens(Chain(g, g.skipper.next(m.end))), r.cursor) && EndsAt(g, r.cursor))
  {
    var m := g.primary(p);
    assert g.Advances(p, m);
    var from := g.skipper.next(m.end);
    RuleFolds(g, p);
    ChainReads(g, from);
    TailStaysOnChain(g, 0, from, m.visibleEnd, p);
    hide Tail, RawValue, FoldInfix, Reads, EndsAt;
  }

  /** A successful rule consumes exactly the greedy chain and its nodes build the only tree that is
      well-shaped over that chain, each node spanning its own operands. */
  lemma RuleBuildsTheTree(g: InfixGrammar, p: nat)
    requires g.Valid() && p <= |g.text| && RuleResult(g, p).Some?
    ensures var r := RuleResult(g, p).value;
            var m := g.primary(p);
            && m.Match?
            && NextLink(g, r.cursor).None?
            && (var v := RawValue(r.nodes);
                && v.Some? && v.value.1 == []
                && (var tree := v.value.0;
                    && WellShaped(g, tree) && Spans(tree) && Begin(tree) == p && End(tree) == r.lastVisible
                    && ShapedAsDeclared(g.operators, tree)
                    && Yield(tree) == [OperandToken(p, m.visibleEnd)] + LinkTokens(Chain(g, g.skipper.next(m.end)))
                    && Reads(g, g.skipper.next(m.end), Yield(tree)[1..], r.cursor) && EndsAt(g, r.cursor)
                    && forall t :: WellShaped(g, t) && Spans(t) && Yield(t) == Yield(tree) ==> t == tree))
  {
    var m := g.primary(p);
    RuleReads(g, p);
    RuleFolds(g, p);
    assert g.Advances(p, m);
    hide Tail, TailStep, Chain, LinkTokens, Yield, FoldInfix, RawValue, RuleResult, WellShaped, Spans;
    var from := g.skipper.next(m.end);
    var tree := FoldInfix(Tail(g, 0, from, m.visibleEnd, p).nodes, Operand(p, m.visibleEnd)).value;
    ShapeIsDeclared(g, tree);
    assert Yield(tree)[1..] == LinkTokens(Chain(g, from));
    forall t | WellShaped(g, t) && Spans(t) && Yield(t) == Yield(tree)
      ensures t == tree
    {
      TreeIsUnique(g, t, tree);
    }
  }

  /** Parses an expression from the start of the text and builds its value. */
  method ParseExpression(g: InfixGrammar) returns (tree: Option<Ast>)
    requires g.Valid()
    ensures tree.Some? <==> g.primary(0).Match?
    ensures tree.Some? ==>
              && WellShaped(g, tree.value) && Spans(tree.value) && ShapedAsDeclared(g.operators, tree.value)
              && (exists q: nat :: Reads(g, g.skipper.next(g.primary(0).end), Yield(tree.value)[1..], q) && EndsAt(g, q))
              && Yield(tree.value) == [OperandToken(0, g.primary(0).visibleEnd)]
                                      + LinkTokens(Chain(g, g.skipper.next(g.primary(0).end)))
              && forall t :: WellShaped(g, t) && Spans(t) && Yield(t) == Yield(tree.value) ==> t == tree.value
  {
    assert g.Advances(0, g.primary(0));
    var ctx := new ParseContext();
    var matched := ParseRule(ctx, g);
    if !matched {
      return None;
    }
    RuleBuildsTheTree(g, 0);
    ghost var r := RuleResult(g, 0).value;
    assert [] + r.nodes == r.nodes;
    var v := GetRawValue(ctx.frames[0]);
    tree := Some(v.value.0);
  }
}
