/** Strict parsing of an infix rule: one operand, then a tail of `operator operand` links.

    `Tail` says which CST nodes the tail appends; the methods below drive a
    `ParseContext` the way the parser does and are proved to append exactly those. */
module InfixRule {
  import opened Options
  import opened StrictContext

  datatype Associativity = Left | Right

  /** The outcome of a deterministic matcher at a position. */
  datatype Match = NoMatch | Match(end: nat, visibleEnd: nat)

  /** What an operator is made of: one literal, or any other expression seen from outside. */
  datatype OperatorElement =
    | SingleLiteral(text: string, caseSensitive: bool)
    | Composite(probe: nat -> bool, parse: nat -> Match, failureSafe: bool)

  datatype InfixOperator = InfixOperator(associativity: Associativity, element: OperatorElement)

  function ToLower(c: char): char {
    if 'A' <= c <= 'Z' then (c as int - 'A' as int + 'a' as int) as char else c
  }

  /** `abandonedAt` is where a failed operand or composite operator leaves the cursor. */
  datatype InfixGrammar = InfixGrammar(
    text: string,
    operators: seq<InfixOperator>,
    primary: nat -> Match,
    abandonedAt: nat -> nat,
    skipper: Skipper,
    identifier: char -> bool)
  {
    ghost predicate Valid() {
      && operators != []
      && skipper.Valid(|text|)
      && (forall p: nat :: p <= |text| ==> abandonedAt(p) <= |text|)
      && (forall p: nat :: p <= |text| ==> Advances(p, primary(p)))
      && (forall i: nat :: i < |operators| ==> ValidOperator(operators[i].element))
    }

    /** A match of a non-nullable expression moves the cursor and stays inside the text. */
    ghost predicate Advances(p: nat, m: Match) {
      m.Match? ==> p < m.end <= |text| && m.visibleEnd <= m.end
    }

    ghost predicate ValidOperator(e: OperatorElement) {
      match e
      case SingleLiteral(lit, caseSensitive) =>
        lit != "" && (!caseSensitive ==> forall k: nat :: k < |lit| ==> ToLower(lit[k]) == lit[k])
      case Composite(_, parse, _) =>
        forall p: nat :: p <= |text| ==> Advances(p, parse(p))
    }

    /** Operators are declared tightest first. */
    function Precedence(i: nat): (p: nat)
      requires i < |operators|
    {
      |operators| - i
    }

    /** The least precedence accepted to the right of operator `i`. */
    function NextMinPrecedence(i: nat): (p: nat)
      requires i < |operators|
    {
      if operators[i].associativity.Left? then Precedence(i) + 1 else Precedence(i)
    }
  }

  predicate CharMatches(c: char, expected: char, caseSensitive: bool) {
    if caseSensitive then c == expected else ToLower(c) == expected
  }

  predicate WordLike(identifier: char -> bool, lit: string) {
    lit != "" && forall k: nat :: k < |lit| ==> identifier(lit[k])
  }

  /** The letters of the literal are at `p`. */
  predicate LettersAt(g: InfixGrammar, lit: string, caseSensitive: bool, p: nat) {
    p + |lit| <= |g.text| && forall k: nat :: k < |lit| ==> CharMatches(g.text[p + k], lit[k], caseSensitive)
  }

  /** A word-like literal must not run on into a longer word. */
  predicate LiteralMatches(g: InfixGrammar, lit: string, caseSensitive: bool, p: nat) {
    && LettersAt(g, lit, caseSensitive, p)
    && !(WordLike(g.identifier, lit) && p + |lit| < |g.text| && g.identifier(g.text[p + |lit|]))
  }

  /** What probing and then parsing operator `i` at `p` gives. */
  function OperatorMatch(g: InfixGrammar, i: nat, p: nat): Match
    requires i < |g.operators|
  {
    match g.operators[i].element
    case SingleLiteral(lit, caseSensitive) =>
      if LiteralMatches(g, lit, caseSensitive, p) then Match(p + |lit|, p + |lit|) else NoMatch
    case Composite(probe, parse, _) =>
      if probe(p) then parse(p) else NoMatch
  }

  /** The raw text of a longer single-literal operator is also at `start`. */
  predicate LongerLiteralAt(g: InfixGrammar, start: nat, length: nat, j: nat)
    requires j < |g.operators|
  {
    && g.operators[j].element.SingleLiteral?
    && |g.operators[j].element.text| > length
    && start + |g.operators[j].element.text| <= |g.text|
    && g.text[start..start + |g.operators[j].element.text|] == g.operators[j].element.text
  }

  predicate Shadowed(g: InfixGrammar, i: nat, start: nat)
    requires i < |g.operators|
  {
    && g.operators[i].element.SingleLiteral?
    && exists j: nat :: j < |g.operators| && LongerLiteralAt(g, start, |g.operators[i].element.text|, j)
  }

  predicate Usable(g: InfixGrammar, i: nat, p: nat)
    requires i < |g.operators|
  {
    OperatorMatch(g, i, p).Match? && !Shadowed(g, i, p)
  }

  /** The first usable operator in declaration order, from `i` on. */
  function SelectFrom(g: InfixGrammar, i: nat, p: nat): (r: Option<nat>)
    requires i <= |g.operators|
    ensures r.Some? ==> i <= r.value < |g.operators| && Usable(g, r.value, p)
    ensures forall j: nat :: i <= j < (if r.Some? then r.value else |g.operators|) ==> !Usable(g, j, p)
    decreases |g.operators| - i
  {
    if i == |g.operators| then None
    else if Usable(g, i, p) then Some(i)
    else SelectFrom(g, i + 1, p)
  }

  /** One `operator operand` step of a chain, with the nodes it puts into the CST. */
  datatype Link = Link(op: nat, opNode: Cst, gap: seq<Cst>, operand: Cst, trail: seq<Cst>, next: nat) {
    function Nodes(): seq<Cst> { [opNode] + gap + [operand] + trail }
  }

  function OperatorNode(g: InfixGrammar, i: nat, p: nat, m: Match): Cst
    requires i < |g.operators| && m.Match?
  {
    if g.operators[i].element.SingleLiteral?
    then Leaf(Operator(i), p, m.end, false)
    else Node(Operator(i), p, m.visibleEnd, [])
  }

  function OperandNode(p: nat, m: Match): Cst
    requires m.Match?
  {
    Node(Primary, p, m.visibleEnd, [])
  }

  function NextLink(g: InfixGrammar, p: nat): (r: Option<Link>) {
    match SelectFrom(g, 0, p)
    case None => None
    case Some(i) =>
      var o := OperatorMatch(g, i, p);
      var start := g.skipper.next(o.end);
      var m := g.primary(start);
      if m.NoMatch? then None
      else Some(Link(i, OperatorNode(g, i, p, o), g.skipper.trivia(o.end),
                     OperandNode(start, m), g.skipper.trivia(m.end), g.skipper.next(m.end)))
  }

  lemma LinkAdvances(g: InfixGrammar, p: nat)
    requires g.Valid() && p <= |g.text|
    ensures NextLink(g, p).Some? ==> p < NextLink(g, p).value.next <= |g.text|
    ensures NextLink(g, p).Some? ==> NextLink(g, p).value.op < |g.operators|
  {
    var s := SelectFrom(g, 0, p);
    if s.Some? {
      assert g.ValidOperator(g.operators[s.value].element);
      var o := OperatorMatch(g, s.value, p);
      assert g.Advances(p, o);
      assert g.Advances(g.skipper.next(o.end), g.primary(g.skipper.next(o.end)));
    }
  }

  datatype TailResult = TailResult(nodes: seq<Cst>, cursor: nat, lastVisible: nat)

  /** One link accepted at this level: a node opened after the left operand, closed over
      `lhsStart`, holding the link and the links that bind tighter. */
  ghost function TailStep(g: InfixGrammar, min: nat, p: nat, lhsStart: nat): (r: Option<TailResult>)
    requires g.Valid() && p <= |g.text|
    ensures r.Some? ==> p < r.value.cursor <= |g.text| && |r.value.nodes| == 1
    decreases |g.text| - p, 0
  {
    LinkAdvances(g, p);
    match NextLink(g, p)
    case None => None
    case Some(link) =>
      if g.Precedence(link.op) < min then None
      else
        var inner := Tail(g, g.NextMinPrecedence(link.op), link.next, link.operand.end, link.operand.begin);
        Some(TailResult([Node(InfixOwner, lhsStart, inner.lastVisible, link.Nodes() + inner.nodes)],
                        inner.cursor, inner.lastVisible))
  }

  /** The nodes a tail appends from `p`. */
  ghost function Tail(g: InfixGrammar, min: nat, p: nat, visible: nat, lhsStart: nat): (r: TailResult)
    requires g.Valid() && p <= |g.text|
    ensures p <= r.cursor <= |g.text|
    decreases |g.text| - p, 1
  {
    match TailStep(g, min, p, lhsStart)
    case None => TailResult([], p, visible)
    case Some(step) =>
      var rest := Tail(g, min, step.cursor, step.lastVisible, lhsStart);
      TailResult(step.nodes + rest.nodes, rest.cursor, rest.lastVisible)
  }

  // ---- The parser, step by step ----

  predicate FailureSafe(e: OperatorElement) {
    e.SingleLiteral? || e.failureSafe
  }

  /** A sub-rule that matched: its node is opened, its text consumed, its node closed. */
  method AppendNode(ctx: ParseContext, element: Element, m: Match)
    requires ctx.Valid() && m.Match?
    modifies ctx
    ensures ctx.Valid()
    ensures ctx.State() == old(ctx.State()).Append([Node(element, old(ctx.cursor), m.visibleEnd, [])], m.end, m.visibleEnd)
  {
    var begin := ctx.cursor;
    ctx.Enter();
    ctx.cursor, ctx.lastVisible := m.end, m.visibleEnd;
    ctx.Exit(begin, element);
  }

  /** Parses operator `i`; a failure of an operator that is not failure safe leaves an open node behind. */
  method ParseOperator(ctx: ParseContext, g: InfixGrammar, i: nat) returns (matched: bool)
    requires ctx.Valid() && i < |g.operators|
    requires g.operators[i].element.Composite? ==> g.operators[i].element.probe(ctx.cursor)
    modifies ctx
    ensures ctx.Valid()
    ensures matched == OperatorMatch(g, i, old(ctx.cursor)).Match?
    ensures matched ==>
              var m := OperatorMatch(g, i, old(ctx.cursor));
              ctx.State() == old(ctx.State()).Append([OperatorNode(g, i, old(ctx.cursor), m)], m.end, m.visibleEnd)
    ensures !matched ==> Extends(old(ctx.State()), ctx.State())
    ensures !matched && FailureSafe(g.operators[i].element) ==> ctx.State() == old(ctx.State())
  {
    match g.operators[i].element
    case SingleLiteral(lit, caseSensitive) =>
      matched := LiteralMatches(g, lit, caseSensitive, ctx.cursor);
      if matched {
        ctx.AppendLeaf(ctx.cursor + |lit|, Operator(i), false);
      }
    case Composite(_, parse, failureSafe) =>
      var m := parse(ctx.cursor);
      matched := m.Match?;
      if matched {
        AppendNode(ctx, Operator(i), m);
      } else if !failureSafe {
        ctx.Enter();
        ctx.cursor := g.abandonedAt(ctx.cursor);
      }
  }

  /** Parses the operand rule; a failure leaves its node open. */
  method ParsePrimary(ctx: ParseContext, g: InfixGrammar) returns (matched: bool)
    requires ctx.Valid()
    modifies ctx
    ensures ctx.Valid()
    ensures matched == g.primary(old(ctx.cursor)).Match?
    ensures matched ==>
              var m := g.primary(old(ctx.cursor));
              ctx.State() == old(ctx.State()).Append([OperandNode(old(ctx.cursor), m)], m.end, m.visibleEnd)
    ensures !matched ==> Extends(old(ctx.State()), ctx.State())
  {
    var m := g.primary(ctx.cursor);
    matched := m.Match?;
    if matched {
      AppendNode(ctx, Primary, m);
    } else {
      ctx.Enter();
      ctx.cursor := g.abandonedAt(ctx.cursor);
    }
  }

  predicate FastProbe(g: InfixGrammar, i: nat, p: nat)
    requires i < |g.operators|
  {
    match g.operators[i].element
    case SingleLiteral(lit, caseSensitive) => LiteralMatches(g, lit, caseSensitive, p)
    case Composite(probe, _, _) => probe(p)
  }

  /** Tries an operator, with a checkpoint only when its failure is not known to be clean. */
  method AttemptOperator(ctx: ParseContext, g: InfixGrammar, i: nat) returns (matched: bool)
    requires ctx.Valid() && i < |g.operators|
    modifies ctx
    ensures ctx.Valid()
    ensures matched == OperatorMatch(g, i, old(ctx.cursor)).Match?
    ensures matched ==>
              var m := OperatorMatch(g, i, old(ctx.cursor));
              ctx.State() == old(ctx.State()).Append([OperatorNode(g, i, old(ctx.cursor), m)], m.end, m.visibleEnd)
    ensures !matched ==> ctx.State() == old(ctx.State())
  {
    ghost var start := ctx.State();
    if !FastProbe(g, i, ctx.cursor) {
      return false;
    }
    if FailureSafe(g.operators[i].element) {
      matched := ParseOperator(ctx, g, i);
    } else {
      var checkpoint := ctx.Mark();
      matched := ParseOperator(ctx, g, i);
      if !matched {
        ctx.Rewind(checkpoint, start);
      }
    }
  }

  /** Some operator from `i` on, of at least the given precedence, may start here. */
  method HasOperatorFastProbe(ctx: ParseContext, g: InfixGrammar, i: nat, min: nat) returns (found: bool)
    requires ctx.Valid() && i < |g.operators|
    ensures found <==> exists j: nat :: i <= j < |g.operators| && g.Precedence(j) >= min && FastProbe(g, j, ctx.cursor)
    decreases |g.operators| - i
  {
    if g.Precedence(i) >= min && FastProbe(g, i, ctx.cursor) {
      return true;
    }
    if i + 1 == |g.operators| {
      return false;
    }
    found := HasOperatorFastProbe(ctx, g, i + 1, min);
  }

  /** Tries the operators from `i` on; the precedence bound only admits or rejects, it never
      changes which operator is found first. */
  method TryMatchOperator(ctx: ParseContext, g: InfixGrammar, i: nat, min: nat) returns (matched: Option<nat>)
    requires ctx.Valid() && i < |g.operators|
    modifies ctx
    ensures ctx.Valid()
    ensures matched == (var s := SelectFrom(g, i, old(ctx.cursor));
                        if s.Some? && g.Precedence(s.value) >= min then s else None)
    ensures matched.Some? ==>
              var m := OperatorMatch(g, matched.value, old(ctx.cursor));
              ctx.State() == old(ctx.State()).Append([OperatorNode(g, matched.value, old(ctx.cursor), m)], m.end, m.visibleEnd)
    ensures matched.None? ==> ctx.State() == old(ctx.State())
    decreases |g.operators| - i
  {
    if g.Precedence(i) < min {
      return None;
    }
    ghost var start := ctx.State();
    var from := ctx.cursor;
    var checkpoint := ctx.Mark();
    var ok := AttemptOperator(ctx, g, i);
    if ok {
      if !Shadowed(g, i, from) {
        return Some(i);
      }
      ctx.Rewind(checkpoint, start);
    }
    if i + 1 == |g.operators| {
      return None;
    }
    matched := TryMatchOperator(ctx, g, i + 1, min);
  }

  /** One turn of the tail, with the nodes of the turns before it. */
  lemma TailGoesOn(g: InfixGrammar, min: nat, p: nat, visible: nat, lhsStart: nat, done: seq<Cst>)
    requires g.Valid() && p <= |g.text|
    ensures var step := TailStep(g, min, p, lhsStart);
            var r := Tail(g, min, p, visible, lhsStart);
            && (step.None? ==> done + r.nodes == done && r.cursor == p && r.lastVisible == visible)
            && (step.Some? ==>
                  var rest := Tail(g, min, step.value.cursor, step.value.lastVisible, lhsStart);
                  done + r.nodes == done + step.value.nodes + rest.nodes && r.cursor == rest.cursor && r.lastVisible == rest.lastVisible)
  {
    hide TailStep, InfixGrammar.Valid;
    var step := TailStep(g, min, p, lhsStart);
    if step.Some? {
      var rest := Tail(g, min, step.value.cursor, step.value.lastVisible, lhsStart);
      assert done + (step.value.nodes + rest.nodes) == done + step.value.nodes + rest.nodes;
    } else {
      assert done + [] == done;
    }
  }

  /** The tail with a precedence bound appends the nodes `Tail` describes, and nothing when it stops. */
  method ParseTailStrict(ctx: ParseContext, g: InfixGrammar, min: nat, lhsStart: nat)
    requires ctx.Valid() && g.Valid() && ctx.cursor <= |g.text|
    modifies ctx
    ensures ctx.Valid()
    ensures var r := Tail(g, min, old(ctx.cursor), old(ctx.lastVisible), lhsStart);
            ctx.State() == old(ctx.State()).Append(r.nodes, r.cursor, r.lastVisible)
    decreases |g.text| - ctx.cursor, 1
  {
    ghost var start := ctx.State();
    AppendNothing(start);
    TailGoesOn(g, min, ctx.cursor, ctx.lastVisible, lhsStart, []);
    if min > |g.operators| {
      return;
    }
    hide Tail, TailStep, InfixGrammar.Valid;
    ghost var whole := Tail(g, min, ctx.cursor, ctx.lastVisible, lhsStart);
    ghost var done: seq<Cst> := [];
    assert done + whole.nodes == whole.nodes;
    while true
      invariant ctx.Valid() && start.cursor <= ctx.cursor <= |g.text|
      invariant ctx.State() == start.Append(done, ctx.cursor, ctx.lastVisible)
      invariant var r := Tail(g, min, ctx.cursor, ctx.lastVisible, lhsStart);
                whole == TailResult(done + r.nodes, r.cursor, r.lastVisible)
      decreases |g.text| - ctx.cursor
    {
      ghost var here := ctx.State();
      ghost var step := TailStep(g, min, ctx.cursor, lhsStart);
      TailGoesOn(g, min, ctx.cursor, ctx.lastVisible, lhsStart, done);
      var more := ParseTailStep(ctx, g, min, lhsStart);
      if !more {
        return;
      }
      AppendTwice(start, done, step.value.nodes, here.cursor, here.lastVisible, ctx.cursor, ctx.lastVisible);
      done := done + step.value.nodes;
    }
  }

  /** Opens a node and parses an operator and its right operand into it. */
  method ParseLink(ctx: ParseContext, g: InfixGrammar, min: nat) returns (op: nat, rhsStart: nat, linked: bool)
    requires ctx.Valid() && g.Valid() && ctx.cursor <= |g.text|
    modifies ctx
    ensures ctx.Valid() && Extends(old(ctx.State()), ctx.State())
    ensures var link := NextLink(g, old(ctx.cursor));
            && linked == (link.Some? && g.Precedence(link.value.op) >= min)
            && (linked ==>
                 && op == link.value.op && rhsStart == link.value.operand.begin
                 && ctx.State() == View(link.value.next, link.value.operand.end, old(ctx.frames) + [link.value.Nodes()]))
  {
    ghost var here := ctx.State();
    op, rhsStart := 0, 0;
    ctx.Enter();
    var found := TryMatchOperator(ctx, g, 0, min);
    if found.None? {
      return 0, 0, false;
    }
    op := found.value;
    ghost var m := OperatorMatch(g, op, here.cursor);
    ghost var opNode := OperatorNode(g, op, here.cursor, m);
    OpenedAppend(here, here.Opened(), [], m.end, m.visibleEnd);
    assert [] + [opNode] == [opNode];
    assert ctx.State() == View(m.end, m.visibleEnd, here.frames + [[opNode]]);
    ctx.Skip(g.skipper);
    OpenedAppend(here, View(m.end, m.visibleEnd, here.frames + [[opNode]]), [opNode], ctx.cursor, m.visibleEnd);
    ghost var gap := [opNode] + g.skipper.trivia(m.end);
    assert ctx.State() == View(g.skipper.next(m.end), m.visibleEnd, here.frames + [gap]);
    rhsStart := ctx.cursor;
    ghost var before := ctx.State();
    ghost var m' := g.primary(rhsStart);
    OpenedAppend(here, before, gap, if m'.Match? then m'.end else 0, if m'.Match? then m'.visibleEnd else 0);
    linked := ParsePrimary(ctx, g);
    if !linked {
      ExtendsTransitive(here, before, ctx.State());
      return;
    }
    ghost var operand := gap + [OperandNode(rhsStart, m')];
    assert ctx.State() == View(ctx.cursor, ctx.lastVisible, here.frames + [operand]);
    OpenedAppend(here, ctx.State(), operand, g.skipper.next(ctx.cursor), ctx.lastVisible);
    ctx.Skip(g.skipper);
    OpenedAppend(here, ctx.State(), NextLink(g, here.cursor).value.Nodes(), 0, 0);
  }

  /** The body of the tail loop. */
  method ParseTailStep(ctx: ParseContext, g: InfixGrammar, min: nat, lhsStart: nat) returns (more: bool)
    requires ctx.Valid() && g.Valid() && ctx.cursor <= |g.text| && min <= |g.operators|
    modifies ctx
    ensures ctx.Valid()
    ensures var r := TailStep(g, min, old(ctx.cursor), lhsStart);
            && more == r.Some?
            && ctx.State() == if more then old(ctx.State()).Append(r.value.nodes, r.value.cursor, r.value.lastVisible)
                              else old(ctx.State())
    decreases |g.text| - ctx.cursor, 0
  {
    ghost var here := ctx.State();
    LinkAdvances(g, ctx.cursor);
    var any := HasOperatorFastProbe(ctx, g, 0, min);
    if !any {
      return false;
    }
    var checkpoint := ctx.Mark();
    var op, rhsStart, linked := ParseLink(ctx, g, min);
    if !linked {
      ctx.Rewind(checkpoint, here);
      return false;
    }
    ghost var link := NextLink(g, here.cursor).value;
    OpenedAppend(here, ctx.State(), link.Nodes(),
                 Tail(g, g.NextMinPrecedence(op), link.next, link.operand.end, rhsStart).cursor,
                 Tail(g, g.NextMinPrecedence(op), link.next, link.operand.end, rhsStart).lastVisible);
    ParseTailStrict(ctx, g, g.NextMinPrecedence(op), rhsStart);
    assert ctx.frames[..|ctx.frames| - 2] == here.frames[..here.Depth()];
    ctx.Exit(lhsStart, InfixOwner);
    return true;
  }

  /** What a successful run of the rule from `p` appends. */
  ghost function RuleResult(g: InfixGrammar, p: nat): (r: Option<TailResult>)
    requires g.Valid() && p <= |g.text|
  {
    var m := g.primary(p);
    if m.NoMatch? then None
    else
      assert g.Advances(p, m);
      var tail := Tail(g, 0, g.skipper.next(m.end), m.visibleEnd, p);
      Some(TailResult([OperandNode(p, m)] + g.skipper.trivia(m.end) + tail.nodes, tail.cursor, tail.lastVisible))
  }

  /** The whole rule: an operand, then a tail that accepts every precedence. */
  method ParseRule(ctx: ParseContext, g: InfixGrammar) returns (matched: bool)
    requires ctx.Valid() && g.Valid() && ctx.cursor <= |g.text|
    modifies ctx
    ensures ctx.Valid()
    ensures matched == RuleResult(g, old(ctx.cursor)).Some?
    ensures matched ==>
              var r := RuleResult(g, old(ctx.cursor)).value;
              ctx.State() == old(ctx.State()).Append(r.nodes, r.cursor, r.lastVisible)
    ensures !matched ==> Extends(old(ctx.State()), ctx.State())
  {
    ghost var start := ctx.State();
    var expressionStart := ctx.cursor;
    matched := ParsePrimary(ctx, g);
    if !matched {
      return;
    }
    ghost var m := g.primary(expressionStart);
    assert g.Advances(expressionStart, m);
    ghost var operand := [OperandNode(expressionStart, m)];
    AppendTwice(start, operand, g.skipper.trivia(m.end), m.end, m.visibleEnd, g.skipper.next(m.end), m.visibleEnd);
    ctx.Skip(g.skipper);
    ghost var tail := Tail(g, 0, ctx.cursor, ctx.lastVisible, expressionStart);
    AppendTwice(start, operand + g.skipper.trivia(m.end), tail.nodes, ctx.cursor, ctx.lastVisible, tail.cursor, tail.lastVisible);
    ParseTailStrict(ctx, g, 0, expressionStart);
  }
}
