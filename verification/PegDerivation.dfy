/** What an expression matches, told by derivations: finite trees in which every conclusion follows from
    its premises by one rule.  Nothing here computes, and the rules name no part of `Meaning`; a settled
    meaning is then shown to be exactly the one outcome a derivation has. */
module PegDerivation {
  import opened Options
  import opened StrictContext
  import opened PegExpression
  import opened PegDepth

  // ---- Derivations ----

  datatype Mode = Parsing | Probing | FastProbing

  /** Where a match ends, where its last visible leaf ends, and the nodes it adds; or that nothing matches. */
  datatype Result = Reaches(end: nat, visible: nat, nodes: seq<Cst>) | Fails

  datatype Derivation = Derivation(
    mode: Mode, expr: Expr, skipper: Skipper, from: nat, visible: nat, result: Result, premises: seq<Derivation>)

  ghost predicate About(d: Derivation, mode: Mode, e: Expr, sk: Skipper, from: nat, visible: nat) {
    d.mode == mode && d.expr == e && d.skipper == sk && d.from == from && d.visible == visible
  }

  /** The only premise looks at one expression from where the conclusion does. */
  ghost predicate One(d: Derivation, mode: Mode, e: Expr, sk: Skipper) {
    |d.premises| == 1 && About(d.premises[0], mode, e, sk, d.from, d.visible)
  }

  /** What the first `n` of some items amount to, the trivia skipped before each but the first included. */
  ghost function Joined(sk: Skipper, from: nat, visible: nat, items: seq<Derivation>, n: nat): Result
    requires n <= |items|
  {
    if n == 0 then Reaches(from, visible, [])
    else
      var before := Joined(sk, from, visible, items, n - 1);
      if before.Fails? || items[n - 1].result.Fails? then Fails
      else
        var trivia := if n == 1 then [] else sk.trivia(before.end);
        var item := items[n - 1].result;
        Reaches(item.end, item.visible, before.nodes + trivia + item.nodes)
  }

  /** An item parsed where the items before it have led, behind the trivia there unless it is the first. */
  ghost predicate Next(sk: Skipper, before: Result, n: nat, item: Derivation) {
    && before.Reaches?
    && About(item, Parsing, item.expr, sk, if n == 0 then before.end else sk.next(before.end), before.visible)
  }

  /** The premises are items parsed one behind the other, of which only the last may fail. */
  ghost predicate InTurn(d: Derivation) {
    forall k: nat :: k < |d.premises| ==>
      Next(d.skipper, Joined(d.skipper, d.from, d.visible, d.premises, k), k, d.premises[k])
  }

  ghost function All(d: Derivation): Result {
    Joined(d.skipper, d.from, d.visible, d.premises, |d.premises|)
  }

  /** The premises try one alternative after the other, up to the first that does not fail. */
  ghost predicate FirstOf(d: Derivation, mode: Mode, parts: seq<Expr>) {
    && |d.premises| <= |parts|
    && (forall k: nat :: k < |d.premises| ==> About(d.premises[k], mode, parts[k], d.skipper, d.from, d.visible))
    && (forall k: nat :: k < |d.premises| - 1 ==> d.premises[k].result.Fails?)
    && (if |d.premises| == 0 || d.premises[|d.premises| - 1].result.Fails?
        then |d.premises| == |parts| && d.result == Fails
        else d.result == d.premises[|d.premises| - 1].result)
  }

  function Without(parts: seq<Expr>, k: nat): seq<Expr> {
    if k < |parts| then parts[..k] + parts[k + 1..] else parts
  }

  /** The parts no round has used before round `n`; a round uses the alternative it tried last. */
  ghost function Remaining(parts: seq<Expr>, rounds: seq<Derivation>, n: nat): seq<Expr>
    requires n <= |rounds|
  {
    if n == 0 then parts
    else if |rounds[n - 1].premises| == 0 then Remaining(parts, rounds, n - 1)
    else Without(Remaining(parts, rounds, n - 1), |rounds[n - 1].premises| - 1)
  }

  ghost function InNode(from: nat, r: Result, element: Element): Result {
    if r.Fails? then Fails else Reaches(r.end, r.visible, [Node(element, from, r.visible, r.nodes)])
  }

  ghost function Renamed(r: Result, element: Element): Result {
    if r.Fails? || r.nodes == [] then r else r.(nodes := [Relabel(r.nodes[0], element)] + r.nodes[1..])
  }

  /** A rule's own skipper goes before the one around the call. */
  ghost function RuleSkipper(g: Grammar, r: nat, around: Skipper): Skipper
    requires r < |g.rules|
  {
    match g.rules[r].skipper case Some(own) => own case None => around
  }

  ghost function Judged(d: Derivation, holds: bool): Result {
    if holds then Reaches(d.from, d.visible, []) else Fails
  }

  ghost predicate Parses(g: Grammar, d: Derivation) {
    match d.expr
    case Terminal(id, m, _) =>
      && d.premises == []
      && d.result == (match m(d.from) case None => Fails
                                      case Some(end) => Reaches(end, end, [Leaf(Other(id), d.from, end, false)]))
    case Marker(element) => d.premises == [] && d.result == Reaches(d.from, d.from, [Leaf(element, d.from, d.from, false)])
    case And(inner) => One(d, Probing, inner, d.skipper) && d.result == Judged(d, d.premises[0].result.Reaches?)
    case Not(inner) => One(d, Probing, inner, d.skipper) && d.result == Judged(d, d.premises[0].result.Fails?)
    case Assign(id, inner) =>
      && One(d, Parsing, inner, d.skipper)
      && d.result == if inner.Choice? then InNode(d.from, d.premises[0].result, Assignment(id))
                     else Renamed(d.premises[0].result, Assignment(id))
    case Group(parts) =>
      && InTurn(d) && |d.premises| <= |parts|
      && (forall k: nat :: k < |d.premises| ==> d.premises[k].expr == parts[k])
      && d.result == All(d) && (d.result.Reaches? ==> |d.premises| == |parts|)
    case Choice(parts) => FirstOf(d, Parsing, parts)
    case Unordered(parts) =>
      && InTurn(d) && |d.premises| <= |parts|
      && (forall k: nat :: k < |d.premises| ==> d.premises[k].expr == Choice(Remaining(parts, d.premises, k)))
      && d.result == All(d) && (d.result.Reaches? ==> |d.premises| == |parts|)
    case Repeat(min, max, inner) =>
      && InTurn(d) && (max.Some? ==> |d.premises| <= max.value)
      && (forall k: nat :: k < |d.premises| ==> d.premises[k].expr == inner)
      && (if All(d).Reaches? then max == Some(|d.premises|) && d.result == All(d)
          else 0 < |d.premises| && d.result == if |d.premises| - 1 < min then Fails
                    else Joined(d.skipper, d.from, d.visible, d.premises, |d.premises| - 1))
    case Skipped(local, inner) => One(d, Parsing, inner, local) && d.result == d.premises[0].result
    case Call(r) =>
      && r < |g.rules| && One(d, Parsing, g.rules[r].body, RuleSkipper(g, r, d.skipper))
      && d.result == InNode(d.from, d.premises[0].result, Other(r))
  }

  // ---- Lookahead ----

  /** What is left of an expression without the skippers wrapped around it. */
  function Core(e: Expr): Expr {
    match e
    case Skipped(_, inner) => Core(inner)
    case _ => e
  }

  predicate Composed(e: Expr) { Core(e).Group? || Core(e).Choice? || Core(e).Repeat? }

  ghost predicate Same(d: Derivation, mode: Mode, e: Expr, sk: Skipper) {
    One(d, mode, e, sk) && d.result == Judged(d, d.premises[0].result.Reaches?)
  }

  /** The parts that a group may start with, up to the first that is there or must not be missing. */
  ghost predicate StartOf(g: Grammar, d: Derivation, parts: seq<Expr>) {
    && 0 < |d.premises| <= |parts|
    && (forall k: nat :: k < |d.premises| ==> About(d.premises[k], FastProbing, parts[k], d.skipper, d.from, d.visible))
    && (forall k: nat :: k < |d.premises| - 1 ==> d.premises[k].result.Fails? && Nullable(g, parts[k]))
    && var last := |d.premises| - 1;
       && (d.premises[last].result.Fails? && Nullable(g, parts[last]) ==> |d.premises| == |parts|)
       && d.result == Judged(d, d.premises[last].result.Reaches?)
  }

  ghost predicate Probes(g: Grammar, d: Derivation) {
    match d.expr
    case Marker(Create(_)) => d.premises == [] && d.result == Fails
    case And(inner) => Same(d, Probing, inner, d.skipper)
    case Not(inner) => One(d, Probing, inner, d.skipper) && d.result == Judged(d, d.premises[0].result.Fails?)
    case Group(parts) => StartOf(g, d, parts)
    case Choice(parts) => FirstOf(d, Probing, parts)
    case Repeat(_, _, inner) => Same(d, FastProbing, inner, d.skipper)
    case Skipped(_, inner) => if Composed(inner) then Same(d, Probing, inner, d.skipper) else Same(d, Parsing, d.expr, d.skipper)
    case _ => Same(d, Parsing, d.expr, d.skipper)
  }

  ghost predicate ProbesFast(g: Grammar, d: Derivation) {
    match d.expr
    case Group(parts) => StartOf(g, d, parts)
    case Choice(parts) => FirstOf(d, FastProbing, parts)
    case Repeat(_, _, inner) => Same(d, FastProbing, inner, d.skipper)
    case Assign(_, inner) => Same(d, FastProbing, inner, d.skipper)
    case Call(r) => r < |g.rules| && Same(d, FastProbing, g.rules[r].body, RuleSkipper(g, r, d.skipper))
    case Skipped(_, inner) => Same(d, if Composed(inner) then FastProbing else Probing, if Composed(inner) then inner else d.expr, d.skipper)
    case _ => Same(d, Probing, d.expr, d.skipper)
  }

  ghost predicate Follows(g: Grammar, d: Derivation) {
    match d.mode
    case Parsing => Parses(g, d)
    case Probing => Probes(g, d)
    case FastProbing => ProbesFast(g, d)
  }

  ghost predicate Holds(g: Grammar, d: Derivation)
    decreases d
  {
    Follows(g, d) && forall k: nat :: k < |d.premises| ==> Holds(g, d.premises[k])
  }

  /** How many conclusions stand above one another. */
  function Height(d: Derivation): nat
    decreases d
  {
    1 + Highest(d.premises)
  }

  function Highest(ds: seq<Derivation>): nat
    decreases ds
  {
    if ds == [] then 0 else if Height(ds[0]) > Highest(ds[1..]) then Height(ds[0]) else Highest(ds[1..])
  }

  lemma {:induction false} PremiseIsLower(ds: seq<Derivation>, k: nat)
    requires k < |ds|
    ensures Height(ds[k]) <= Highest(ds)
  {
    if k > 0 {
      assert ds[1..][k - 1] == ds[k];
      PremiseIsLower(ds[1..], k - 1);
    }
  }

  // ---- What a derivation says about a state ----

  /** The state in which the subject of the derivation is looked at. */
  ghost predicate At(g: Grammar, d: Derivation, s: View) {
    Ready(g, d.expr, d.skipper, s) && s.cursor == d.from && s.lastVisible == d.visible
  }

  ghost function Told(s: View, r: Result): Outcome
    requires s.Valid()
  {
    if r.Fails? then No else Ok(s.Append(r.nodes, r.end, r.visible))
  }

  ghost function Answer(r: Result): Verdict {
    if r.Fails? then Nope else Yes
  }

  ghost function After(s: View, r: Result): View
    requires s.Valid() && r.Reaches?
  {
    s.Append(r.nodes, r.end, r.visible)
  }

  lemma InNodeCloses(s: View, r: Result, element: Element)
    requires s.Valid() && r.Reaches?
    ensures var t := s.Opened().Append(r.nodes, r.end, r.visible);
            t.Valid() && Ok(Closed(s, t, element)) == Told(s, InNode(s.cursor, r, element))
  {
    var t := s.Opened().Append(r.nodes, r.end, r.visible);
    assert t.Top() == [] + r.nodes == r.nodes;
  }

  lemma RenamedRelabels(s: View, r: Result, element: Element)
    requires s.Valid() && r.Reaches?
    ensures var t := s.Append(r.nodes, r.end, r.visible);
            |t.frames| == |s.frames| && Ok(FirstRelabelled(s, t, element)) == Told(s, Renamed(r, element))
  {
    var t, d, n := s.Append(r.nodes, r.end, r.visible), s.Depth(), |s.Top()|;
    assert t.frames[d] == s.Top() + r.nodes;
    if r.nodes != [] {
      var renamed := Relabel(r.nodes[0], element);
      assert t.frames[d][n] == r.nodes[0];
      assert t.frames[d][n := renamed] == s.Top() + ([renamed] + r.nodes[1..]);
      assert t.frames[d := t.frames[d][n := renamed]] == s.frames[..d] + [s.Top() + ([renamed] + r.nodes[1..])];
    } else {
      assert |t.frames[d]| == n;
    }
  }

  lemma ComposedProbesItsStart(e: Expr)
    ensures Composed(e) == ProbesItsStart(e)
  {
  }

  ghost function SoFar(d: Derivation, k: nat): Result
    requires k <= |d.premises|
  {
    Joined(d.skipper, d.from, d.visible, d.premises, k)
  }

  /** Item `k` begins where the items before it have led in the text and in the tree. */
  lemma ItemStarts(d: Derivation, k: nat, s: View)
    requires s.Valid() && s.cursor == d.from && s.lastVisible == d.visible && k < |d.premises| && InTurn(d)
    ensures SoFar(d, k).Reaches?
    ensures var from, item := Between(k, d.skipper, After(s, SoFar(d, k))), d.premises[k];
            && from.Valid() && from.cursor == item.from && from.lastVisible == item.visible && item.skipper == d.skipper && item.mode.Parsing?
            && (item.result.Reaches? ==> SoFar(d, k + 1).Reaches? && After(from, item.result) == After(s, SoFar(d, k + 1)))
            && (item.result.Fails? ==> SoFar(d, k + 1).Fails?)
  {
    var before, item := SoFar(d, k), d.premises[k];
    assert Next(d.skipper, before, k, item);
    var trivia := if k == 0 then [] else d.skipper.trivia(before.end);
    var from := Between(k, d.skipper, After(s, before));
    assert from == s.Append(before.nodes + trivia, item.from, item.visible) by {
      if k == 0 {
        assert before.nodes + trivia == [];
        AppendNothing(s);
      } else {
        AppendTwice(s, before.nodes, trivia, before.end, before.visible, item.from, item.visible);
      }
    }
    if item.result.Reaches? {
      AppendTwice(s, before.nodes + trivia, item.result.nodes, item.from, item.visible, item.result.end, item.result.visible);
    }
  }

  lemma LastFails(d: Derivation, k: nat)
    requires k < |d.premises| && InTurn(d) && SoFar(d, k + 1).Fails?
    ensures k + 1 == |d.premises|
  {
    if k + 1 < |d.premises| {
      assert false;
    }
  }

  lemma InNodeIsMeant(s: View, r: Result, element: Element)
    requires s.Valid()
    ensures var o := Told(s.Opened(), r);
            (if o.Ok? then Ok(Closed(s, o.state, element)) else o) == Told(s, InNode(s.cursor, r, element))
  {
    if r.Reaches? {
      InNodeCloses(s, r, element);
    }
  }

  lemma RenamedIsMeant(s: View, r: Result, element: Element)
    requires s.Valid()
    ensures var o := Told(s, r);
            && (o.Ok? ==> |o.state.frames| == |s.frames|)
            && (if o.Ok? then Ok(FirstRelabelled(s, o.state, element)) else o) == Told(s, Renamed(r, element))
  {
    if r.Reaches? {
      RenamedRelabels(s, r, element);
    }
  }

  lemma NothingYet(d: Derivation, s: View)
    requires s.Valid() && s.cursor == d.from && s.lastVisible == d.visible
    ensures SoFar(d, 0).Reaches? && After(s, SoFar(d, 0)) == s
  {
    AppendNothing(s);
  }

  /** The parts from `i` on that no round has used. */
  function Unmatched(parts: seq<Expr>, flags: seq<bool>, i: nat): seq<Expr>
    requires |flags| == |parts| && i <= |parts|
    decreases |parts| - i
  {
    if i == |parts| then []
    else if flags[i] then Unmatched(parts, flags, i + 1)
    else [parts[i]] + Unmatched(parts, flags, i + 1)
  }

  lemma {:induction false} AllUnmatched(parts: seq<Expr>, i: nat)
    requires i <= |parts|
    ensures Unmatched(parts, NoFlags(|parts|), i) == parts[i..]
    decreases |parts| - i
  {
    if i < |parts| {
      AllUnmatched(parts, i + 1);
    }
  }

  lemma {:induction false} EarlierFlagsAreOver(parts: seq<Expr>, flags: seq<bool>, j: nat, i: nat)
    requires |flags| == |parts| && j < i <= |parts|
    ensures Unmatched(parts, flags[j := true], i) == Unmatched(parts, flags, i)
    decreases |parts| - i
  {
    if i < |parts| {
      EarlierFlagsAreOver(parts, flags, j, i + 1);
    }
  }

  /** Among the unmatched parts from `i` on, part `at` is the one at place `k`. */
  ghost predicate Uses(parts: seq<Expr>, flags: seq<bool>, i: nat, at: nat, k: nat)
    requires |flags| == |parts| && i <= at < |parts|
  {
    Without(Unmatched(parts, flags, i), k) == Unmatched(parts, flags[at := true], i)
  }

  lemma NoneUsed(d: Derivation)
    requires d.expr.Unordered?
    ensures Remaining(d.expr.parts, d.premises, 0) == Unmatched(d.expr.parts, NoFlags(|d.expr.parts|), 0)
  {
    AllUnmatched(d.expr.parts, 0);
    assert d.expr.parts[0..] == d.expr.parts;
  }

  lemma UsesFirst(parts: seq<Expr>, flags: seq<bool>, i: nat)
    requires |flags| == |parts| && i < |parts| && !flags[i]
    ensures Uses(parts, flags, i, i, 0)
  {
    EarlierFlagsAreOver(parts, flags, i, i + 1);
  }

  lemma UsesLater(parts: seq<Expr>, flags: seq<bool>, i: nat, at: nat, k: nat)
    requires |flags| == |parts| && i < at < |parts| && Uses(parts, flags, i + 1, at, k)
    ensures Uses(parts, flags, i, at, if flags[i] then k else k + 1)
  {
    var later := Unmatched(parts, flags, i + 1);
    if !flags[i] {
      assert Unmatched(parts, flags, i) == [parts[i]] + later;
      assert Without([parts[i]] + later, k + 1) == [parts[i]] + Without(later, k);
    }
  }

  lemma RoundUses(parts: seq<Expr>, rounds: seq<Derivation>, k: nat, flags: seq<bool>, at: nat)
    requires k < |rounds| && |flags| == |parts| && at < |parts| && 0 < |rounds[k].premises|
    requires Remaining(parts, rounds, k) == Unmatched(parts, flags, 0) && Uses(parts, flags, 0, at, |rounds[k].premises| - 1)
    ensures Remaining(parts, rounds, k + 1) == Unmatched(parts, flags[at := true], 0)
  {
  }

  /** The unmatched part at `i` is the next of them. */
  lemma NextUnmatched(parts: seq<Expr>, flags: seq<bool>, all: seq<Expr>, i: nat, j: nat)
    requires |flags| == |parts| && i < |parts| && j <= |all| && all[j..] == Unmatched(parts, flags, i)
    ensures if flags[i] then all[j..] == Unmatched(parts, flags, i + 1)
            else j < |all| && all[j] == parts[i] && all[j + 1..] == Unmatched(parts, flags, i + 1)
  {
    if !flags[i] {
      assert all[j..][0] == parts[i];
      assert all[j + 1..] == all[j..][1..];
    }
  }

  ghost predicate RoundsOf(d: Derivation, parts: seq<Expr>) {
    forall k: nat :: k < |d.premises| ==> d.premises[k].expr == Choice(Remaining(parts, d.premises, k))
  }

  // ---- Rules read from a derivation, and into one ----

  ghost predicate PremisesHold(g: Grammar, d: Derivation) {
    forall k: nat :: k < |d.premises| ==> Holds(g, d.premises[k])
  }

  lemma HoldsInside(g: Grammar, d: Derivation)
    requires Holds(g, d)
    ensures Follows(g, d) && PremisesHold(g, d)
  {
    hide Follows;
  }

  lemma Concluded(g: Grammar, d: Derivation)
    requires Follows(g, d) && PremisesHold(g, d)
    ensures Holds(g, d)
  {
    hide Follows;
  }

  lemma AssignHolds(g: Grammar, d: Derivation)
    requires Holds(g, d) && d.mode.Parsing? && d.expr.Assign?
    ensures One(d, Parsing, d.expr.inner, d.skipper) && Holds(g, d.premises[0])
    ensures d.result == if d.expr.inner.Choice? then InNode(d.from, d.premises[0].result, Assignment(d.expr.id))
                        else Renamed(d.premises[0].result, Assignment(d.expr.id))
  {
    hide Holds, InNode, Renamed;
    HoldsInside(g, d);
  }

  lemma CallHolds(g: Grammar, d: Derivation)
    requires Holds(g, d) && d.mode.Parsing? && d.expr.Call?
    ensures var r := d.expr.rule;
            && r < |g.rules| && One(d, Parsing, g.rules[r].body, RuleSkipper(g, r, d.skipper)) && Holds(g, d.premises[0])
            && d.result == InNode(d.from, d.premises[0].result, Other(r))
  {
    hide Holds, InNode, RuleSkipper;
    HoldsInside(g, d);
  }

  lemma GroupHolds(g: Grammar, d: Derivation)
    requires Holds(g, d) && d.mode.Parsing? && d.expr.Group?
    ensures InTurn(d) && PremisesHold(g, d) && |d.premises| <= |d.expr.parts| && d.result == SoFar(d, |d.premises|)
    ensures d.result.Reaches? ==> |d.premises| == |d.expr.parts|
    ensures forall k: nat :: k < |d.premises| ==> d.premises[k].expr == d.expr.parts[k]
  {
    hide Holds, InTurn, Joined;
    HoldsInside(g, d);
  }

  lemma RepeatHolds(g: Grammar, d: Derivation)
    requires Holds(g, d) && d.mode.Parsing? && d.expr.Repeat?
    ensures InTurn(d) && PremisesHold(g, d) && (d.expr.max.Some? ==> |d.premises| <= d.expr.max.value)
    ensures forall k: nat :: k < |d.premises| ==> d.premises[k].expr == d.expr.inner
    ensures SoFar(d, |d.premises|).Reaches? ==> d.expr.max == Some(|d.premises|) && d.result == SoFar(d, |d.premises|)
    ensures SoFar(d, |d.premises|).Fails? ==>
      0 < |d.premises| && d.result == if |d.premises| - 1 < d.expr.min then Fails else SoFar(d, |d.premises| - 1)
  {
    hide Holds, InTurn, Joined;
    HoldsInside(g, d);
  }

  lemma UnorderedHolds(g: Grammar, d: Derivation)
    requires Holds(g, d) && d.mode.Parsing? && d.expr.Unordered?
    ensures InTurn(d) && PremisesHold(g, d) && |d.premises| <= |d.expr.parts| && d.result == SoFar(d, |d.premises|)
    ensures d.result.Reaches? ==> |d.premises| == |d.expr.parts|
    ensures RoundsOf(d, d.expr.parts)
  {
    hide Holds, InTurn, Joined, Remaining;
    HoldsInside(g, d);
  }

  lemma ChoiceHolds(g: Grammar, d: Derivation)
    requires Holds(g, d) && d.expr.Choice?
    ensures FirstOf(d, d.mode, d.expr.parts) && PremisesHold(g, d)
  {
    hide Holds, FirstOf;
    HoldsInside(g, d);
  }

  lemma StartHolds(g: Grammar, d: Derivation)
    requires Holds(g, d) && !d.mode.Parsing? && d.expr.Group?
    ensures StartOf(g, d, d.expr.parts) && PremisesHold(g, d)
  {
    hide Holds, StartOf;
    HoldsInside(g, d);
  }

  lemma UnmatchedUnfolds(g: Grammar, e: Expr, i: nat, flags: seq<bool>, sk: Skipper, s: View, fuel: nat)
    requires Ready(g, e, sk, s) && e.Unordered? && |flags| == |e.parts| && i < |e.parts|
    ensures Ready(g, e.parts[i], sk, s)
    ensures var r := Meaning(g, e.parts[i], sk, s, fuel);
            FirstUnmatched(g, e, i, flags, sk, s, fuel) ==
            if flags[i] || r.No? then FirstUnmatched(g, e, i + 1, flags, sk, s, fuel) else (i, r)
  {
    hide Meaning;
  }

  lemma RoundIsOver(g: Grammar, e: Expr, flags: seq<bool>, round: Derivation, j: nat, s: View, fuel: nat)
    requires Ready(g, e, round.skipper, s) && e.Unordered? && |flags| == |e.parts|
    requires round.expr.Choice? && FirstOf(round, Parsing, round.expr.parts)
    requires j <= |round.premises| && (forall m: nat :: m < j ==> round.premises[m].result.Fails?)
    requires round.expr.parts[j..] == Unmatched(e.parts, flags, |e.parts|)
    ensures round.result.Fails? && FirstUnmatched(g, e, |e.parts|, flags, round.skipper, s, fuel) == (|e.parts|, No)
  {
    assert |round.expr.parts| == j;
  }
}
