/** The expression language of the parser, its static flags, and the meaning of an expression
    when every failed attempt restores the state it started from. */
module PegExpression {
  import opened Options
  import opened StrictContext

  datatype Expr =
    | Terminal(id: nat, match_: nat -> Option<nat>, nullable: bool)
    | Marker(element: Element)
    | And(inner: Expr)
    | Not(inner: Expr)
    | Assign(id: nat, inner: Expr)
    | Group(parts: seq<Expr>)
    | Choice(parts: seq<Expr>)
    | Unordered(parts: seq<Expr>)
    | Repeat(min: nat, max: Option<nat>, inner: Expr)
    | Skipped(skipper: Skipper, inner: Expr)
    | Call(rule: nat)

  /** A rule: its declared nullability, its body, and a skipper of its own if it has one. */
  datatype Rule = Rule(nullable: bool, body: Expr, skipper: Option<Skipper>)

  datatype Grammar = Grammar(size: nat, rules: seq<Rule>) {
    ghost predicate Valid() {
      forall r: nat :: r < |rules| ==>
        && WellFormed(this, rules[r].body)
        && rules[r].nullable == Nullable(this, rules[r].body)
        && (rules[r].skipper.Some? ==> rules[r].skipper.value.Valid(size))
    }
  }

  // ---- Static flags ----

  predicate Nullable(g: Grammar, e: Expr) {
    match e
    case Terminal(_, _, nullable) => nullable
    case Marker(_) => true
    case And(_) => true
    case Not(_) => true
    case Assign(_, _) => false
    case Group(parts) => forall i: nat :: i < |parts| ==> Nullable(g, parts[i])
    case Choice(parts) => exists i: nat :: i < |parts| && Nullable(g, parts[i])
    case Unordered(_) => false
    case Repeat(min, _, _) => min == 0
    case Skipped(_, inner) => Nullable(g, inner)
    case Call(r) => r < |g.rules| && g.rules[r].nullable
  }

  /** A failure of the expression is promised to leave no partial work behind. */
  predicate FailureSafe(e: Expr) {
    match e
    case Terminal(_, _, _) => true
    case Marker(_) => true
    case And(_) => true
    case Not(_) => true
    case Assign(_, inner) => !inner.Choice? && FailureSafe(inner)
    case Group(_) => false
    case Choice(_) => true
    case Unordered(_) => true
    case Repeat(min, max, inner) => min == 0 || (min == 1 && (max != Some(1) || FailureSafe(inner)))
    case Skipped(_, inner) => FailureSafe(inner)
    case Call(_) => false
  }

  /** What the static assertions of the expression classes require. */
  ghost predicate WellFormed(g: Grammar, e: Expr) {
    match e
    case Terminal(_, m, nullable) =>
      forall p: nat :: p <= g.size && m(p).Some? ==> p <= m(p).value <= g.size && (!nullable ==> p < m(p).value)
    case Marker(_) => true
    case And(inner) => WellFormed(g, inner)
    case Not(inner) => WellFormed(g, inner)
    case Assign(_, inner) => WellFormed(g, inner) && !Nullable(g, inner)
    case Group(parts) => |parts| > 1 && forall i: nat :: i < |parts| ==> WellFormed(g, parts[i])
    case Choice(parts) =>
      |parts| > 1 && forall i: nat :: i < |parts| ==> WellFormed(g, parts[i]) && (i + 1 < |parts| ==> !Nullable(g, parts[i]))
    case Unordered(parts) => |parts| > 1 && forall i: nat :: i < |parts| ==> WellFormed(g, parts[i]) && !Nullable(g, parts[i])
    case Repeat(min, max, inner) =>
      WellFormed(g, inner) && !Nullable(g, inner) && (max.Some? ==> 0 < max.value && min <= max.value)
    case Skipped(skipper, inner) => skipper.Valid(g.size) && WellFormed(g, inner)
    case Call(r) => r < |g.rules|
  }

  // ---- Meaning ----

  /** The outcome of an expression; `Out` only says that the given call depth was not enough. */
  datatype Outcome = Ok(state: View) | No | Out

  datatype Verdict = Yes | Nope | Unknown

  /** `t` keeps everything of `s`, adds children to the open node only, and does not go back. */
  ghost predicate Grown(g: Grammar, s: View, t: View)
    requires s.Valid()
  {
    && |t.frames| == |s.frames|
    && t.frames[..s.Depth()] == s.frames[..s.Depth()]
    && s.Top() <= t.frames[s.Depth()]
    && s.cursor <= t.cursor <= g.size
  }

  lemma AppendGrows(g: Grammar, s: View, nodes: seq<Cst>, cursor: nat, lastVisible: nat)
    requires s.Valid() && s.cursor <= cursor <= g.size
    ensures var t := s.Append(nodes, cursor, lastVisible); t.Valid() && Grown(g, s, t) && t.cursor == cursor
  {
  }

  ghost predicate Progress(g: Grammar, e: Expr, s: View, r: Outcome)
    requires s.Valid()
  {
    r.Ok? ==> Grown(g, s, r.state) && (!Nullable(g, e) ==> s.cursor < r.state.cursor)
  }

  ghost function AfterSkip(sk: Skipper, s: View): View
    requires s.Valid()
  {
    s.Append(sk.trivia(s.cursor), sk.next(s.cursor), s.lastVisible)
  }

  /** Closing the node opened in `s` once its content has led to `t`. */
  ghost function Closed(s: View, t: View, element: Element): View
    requires s.Valid() && t.Valid()
  {
    s.Append([Node(element, s.cursor, t.lastVisible, t.Top())], t.cursor, t.lastVisible)
  }

  /** The first child added since `s`, if any, now belongs to `element`. */
  ghost function FirstRelabelled(s: View, t: View, element: Element): View
    requires s.Valid() && |t.frames| == |s.frames|
  {
    var d, n := s.Depth(), |s.Top()|;
    if n < |t.frames[d]|
    then t.(frames := t.frames[d := t.frames[d][n := Relabel(t.frames[d][n], element)]])
    else t
  }

  lemma SkipGrows(g: Grammar, s: View, sk: Skipper)
    requires s.Valid() && s.cursor <= g.size && sk.Valid(g.size)
    ensures AfterSkip(sk, s).Valid() && Grown(g, s, AfterSkip(sk, s)) && AfterSkip(sk, s).cursor == sk.next(s.cursor)
  {
  }

  /** What has to be skipped before the next item, given how many have matched. */
  ghost function Between(count: nat, sk: Skipper, s: View): View
    requires s.Valid()
  {
    if count == 0 then s else AfterSkip(sk, s)
  }

  lemma BetweenGrows(g: Grammar, count: nat, sk: Skipper, s: View)
    requires s.Valid() && s.cursor <= g.size && sk.Valid(g.size)
    ensures Between(count, sk, s).Valid() && Grown(g, s, Between(count, sk, s)) && Between(count, sk, s).cursor <= g.size
  {
    if count > 0 {
      SkipGrows(g, s, sk);
    }
  }

  lemma OutcomeGrows(g: Grammar, s: View, t: View, r: Outcome)
    requires s.Valid() && t.Valid() && Grown(g, s, t) && (r.Ok? ==> Grown(g, t, r.state))
    ensures r.Ok? ==> Grown(g, s, r.state) && r.state.Valid() && r.state.cursor <= g.size
  {
  }

  lemma ClosedGrows(g: Grammar, s: View, t: View, element: Element)
    requires s.Valid() && s.cursor <= g.size && Grown(g, s.Opened(), t)
    ensures t.Valid() && Grown(g, s, Closed(s, t, element)) && Closed(s, t, element).cursor == t.cursor
  {
  }

  lemma RelabelledGrows(g: Grammar, s: View, t: View, element: Element)
    requires s.Valid() && Grown(g, s, t)
    ensures Grown(g, s, FirstRelabelled(s, t, element)) && FirstRelabelled(s, t, element).cursor == t.cursor
  {
  }

  function NoFlags(n: nat): (flags: seq<bool>)
    ensures |flags| == n
  {
    seq(n, _ => false)
  }

  ghost function Meaning(g: Grammar, e: Expr, sk: Skipper, s: View, fuel: nat): (r: Outcome)
    requires g.Valid() && WellFormed(g, e) && sk.Valid(g.size) && s.Valid() && s.cursor <= g.size
    ensures Progress(g, e, s, r)
    decreases fuel, e, 3, 0
  {
    hide Grown, View.Append, AfterSkip, Closed, FirstRelabelled;
    match e
    case Terminal(id, m, _) =>
      if m(s.cursor).None? then No
      else
        AppendGrows(g, s, [Leaf(Other(id), s.cursor, m(s.cursor).value, false)], m(s.cursor).value, m(s.cursor).value);
        Ok(s.Append([Leaf(Other(id), s.cursor, m(s.cursor).value, false)], m(s.cursor).value, m(s.cursor).value))
    case Marker(element) =>
      AppendGrows(g, s, [Leaf(element, s.cursor, s.cursor, false)], s.cursor, s.cursor);
      Ok(s.Append([Leaf(element, s.cursor, s.cursor, false)], s.cursor, s.cursor))
    case And(inner) =>
      (match Probe(g, inner, sk, s, fuel) case Yes => Ok(s) case Nope => No case Unknown => Out)
    case Not(inner) =>
      (match Probe(g, inner, sk, s, fuel) case Yes => No case Nope => Ok(s) case Unknown => Out)
    case Assign(id, inner) =>
      if inner.Choice? then
        var r := Meaning(g, inner, sk, s.Opened(), fuel);
        if r.Ok? then ClosedGrows(g, s, r.state, Assignment(id)); Ok(Closed(s, r.state, Assignment(id))) else r
      else
        var r := Meaning(g, inner, sk, s, fuel);
        if r.Ok? then RelabelledGrows(g, s, r.state, Assignment(id)); Ok(FirstRelabelled(s, r.state, Assignment(id))) else r
    case Group(_) => GroupFrom(g, e, 0, sk, s, fuel)
    case Choice(_) => ChoiceFrom(g, e, 0, sk, s, fuel)
    case Unordered(_) => UnorderedFrom(g, e, NoFlags(|e.parts|), 0, sk, s, fuel)
    case Repeat(_, _, _) => RepeatFrom(g, e, 0, sk, s, fuel)
    case Skipped(local, inner) => Meaning(g, inner, local, s, fuel)
    case Call(rule) =>
      if fuel == 0 then Out
      else
        var local := if g.rules[rule].skipper.Some? then g.rules[rule].skipper.value else sk;
        var r := Meaning(g, g.rules[rule].body, local, s.Opened(), fuel - 1);
        if r.Ok? then ClosedGrows(g, s, r.state, Other(rule)); Ok(Closed(s, r.state, Other(rule))) else r
  }

  /** The parts from `i` on, trivia skipped before each but the first. */
  ghost function GroupFrom(g: Grammar, e: Expr, i: nat, sk: Skipper, s: View, fuel: nat): (r: Outcome)
    requires g.Valid() && WellFormed(g, e) && sk.Valid(g.size) && s.Valid() && s.cursor <= g.size
    requires e.Group? && i <= |e.parts|
    ensures r.Ok? ==> Grown(g, s, r.state)
    ensures r.Ok? && (exists j: nat :: i <= j < |e.parts| && !Nullable(g, e.parts[j])) ==> s.cursor < r.state.cursor
    decreases fuel, e, 2, |e.parts| - i
  {
    if i == |e.parts| then Ok(s)
    else
      hide Grown, Between;
      BetweenGrows(g, i, sk, s);
      var from := Between(i, sk, s);
      var r := Meaning(g, e.parts[i], sk, from, fuel);
      OutcomeGrows(g, s, from, r);
      if r.Ok? then
        var rest := GroupFrom(g, e, i + 1, sk, r.state, fuel);
        OutcomeGrows(g, s, r.state, rest);
        rest
      else r
  }

  /** The first alternative from `i` on that matches. */
  ghost function ChoiceFrom(g: Grammar, e: Expr, i: nat, sk: Skipper, s: View, fuel: nat): (r: Outcome)
    requires g.Valid() && WellFormed(g, e) && sk.Valid(g.size) && s.Valid() && s.cursor <= g.size
    requires e.Choice? && i <= |e.parts|
    ensures Progress(g, e, s, r)
    decreases fuel, e, 2, |e.parts| - i
  {
    if i == |e.parts| then No
    else
      var r := Meaning(g, e.parts[i], sk, s, fuel);
      if r.No? then ChoiceFrom(g, e, i + 1, sk, s, fuel) else r
  }

  /** Every part once, in any order, first match first; `flags` marks the parts that have matched. */
  ghost function UnorderedFrom(g: Grammar, e: Expr, flags: seq<bool>, count: nat, sk: Skipper, s: View, fuel: nat): (r: Outcome)
    requires g.Valid() && WellFormed(g, e) && sk.Valid(g.size) && s.Valid() && s.cursor <= g.size
    requires e.Unordered? && |flags| == |e.parts| && count <= |e.parts|
    ensures r.Ok? ==> Grown(g, s, r.state) && (count < |e.parts| ==> s.cursor < r.state.cursor)
    decreases fuel, e, 2, |e.parts| - count
  {
    if count == |e.parts| then Ok(s)
    else
      hide Grown, Between;
      BetweenGrows(g, count, sk, s);
      var from := Between(count, sk, s);
      var (i, r) := FirstUnmatched(g, e, 0, flags, sk, from, fuel);
      OutcomeGrows(g, s, from, r);
      if r.Ok? then
        var rest := UnorderedFrom(g, e, flags[i := true], count + 1, sk, r.state, fuel);
        OutcomeGrows(g, s, r.state, rest);
        rest
      else r
  }

  /** The first part from `i` on, not matched before, that matches now. */
  ghost function FirstUnmatched(g: Grammar, e: Expr, i: nat, flags: seq<bool>, sk: Skipper, s: View, fuel: nat): (r: (nat, Outcome))
    requires g.Valid() && WellFormed(g, e) && sk.Valid(g.size) && s.Valid() && s.cursor <= g.size
    requires e.Unordered? && |flags| == |e.parts| && i <= |e.parts|
    ensures r.1.Ok? ==> r.0 < |e.parts| && !flags[r.0] && Grown(g, s, r.1.state) && s.cursor < r.1.state.cursor
    decreases fuel, e, 1, |e.parts| - i
  {
    if i == |e.parts| then (i, No)
    else if flags[i] then FirstUnmatched(g, e, i + 1, flags, sk, s, fuel)
    else
      var r := Meaning(g, e.parts[i], sk, s, fuel);
      if r.No? then FirstUnmatched(g, e, i + 1, flags, sk, s, fuel) else (i, r)
  }

  /** The remaining items once `count` of them have matched. */
  ghost function RepeatFrom(g: Grammar, e: Expr, count: nat, sk: Skipper, s: View, fuel: nat): (r: Outcome)
    requires g.Valid() && WellFormed(g, e) && sk.Valid(g.size) && s.Valid() && s.cursor <= g.size
    requires e.Repeat?
    ensures r.Ok? ==> Grown(g, s, r.state) && (count < e.min ==> s.cursor < r.state.cursor)
    decreases fuel, e, 2, g.size - s.cursor
  {
    if e.max == Some(count) then Ok(s)
    else
      hide Grown, Between;
      BetweenGrows(g, count, sk, s);
      var from := Between(count, sk, s);
      var r := Meaning(g, e.inner, sk, from, fuel);
      OutcomeGrows(g, s, from, r);
      if r.Ok? then
        var rest := RepeatFrom(g, e, count + 1, sk, r.state, fuel);
        OutcomeGrows(g, s, r.state, rest);
        rest
      else if r.No? && count >= e.min then Ok(s)
      else r
  }

  lemma UnorderedUnfolds(g: Grammar, e: Expr, flags: seq<bool>, count: nat, sk: Skipper, s: View, fuel: nat)
    requires g.Valid() && WellFormed(g, e) && sk.Valid(g.size) && s.Valid() && s.cursor <= g.size
    requires e.Unordered? && |flags| == |e.parts| && count < |e.parts|
    requires var from := Between(count, sk, s); from.Valid() && from.cursor <= g.size
    ensures var (i, r) := FirstUnmatched(g, e, 0, flags, sk, Between(count, sk, s), fuel);
            && (r.Ok? ==> i < |e.parts| && Grown(g, Between(count, sk, s), r.state) && r.state.Valid() && r.state.cursor <= g.size)
            && UnorderedFrom(g, e, flags, count, sk, s, fuel) ==
               if r.Ok? then UnorderedFrom(g, e, flags[i := true], count + 1, sk, r.state, fuel) else r
  {
    hide WellFormed, FirstUnmatched, Between;
  }

  lemma UnorderedDone(g: Grammar, e: Expr, flags: seq<bool>, sk: Skipper, s: View, fuel: nat)
    requires g.Valid() && WellFormed(g, e) && sk.Valid(g.size) && s.Valid() && s.cursor <= g.size
    requires e.Unordered? && |flags| == |e.parts|
    ensures UnorderedFrom(g, e, flags, |e.parts|, sk, s, fuel) == Ok(s)
  {
    hide WellFormed, FirstUnmatched;
  }

  // ---- Lookahead ----

  /** Groups, choices and repetitions only look at how they start, also behind a skipper of their own. */
  predicate ProbesItsStart(e: Expr) {
    e.Group? || e.Choice? || e.Repeat? || (e.Skipped? && ProbesItsStart(e.inner))
  }

  /** A probe: some expressions only look at how they start, the others are parsed and undone. */
  ghost function Probe(g: Grammar, e: Expr, sk: Skipper, s: View, fuel: nat): (v: Verdict)
    requires g.Valid() && WellFormed(g, e) && sk.Valid(g.size) && s.Valid() && s.cursor <= g.size
    decreases fuel, e, 5, 0
  {
    match e
    case Marker(Create(_)) => Nope
    case And(inner) => Probe(g, inner, sk, s, fuel)
    case Not(inner) =>
      (match Probe(g, inner, sk, s, fuel) case Yes => Nope case Nope => Yes case Unknown => Unknown)
    case Group(_) => FastProbeGroup(g, e, 0, sk, s, fuel)
    case Choice(_) => ProbeChoice(g, e, 0, false, sk, s, fuel)
    case Repeat(_, _, inner) => FastProbe(g, inner, sk, s, fuel)
    case Skipped(_, inner) => if ProbesItsStart(inner) then Probe(g, inner, sk, s, fuel) else ParseProbe(g, e, sk, s, fuel)
    case _ => ParseProbe(g, e, sk, s, fuel)
  }

  ghost function ParseProbe(g: Grammar, e: Expr, sk: Skipper, s: View, fuel: nat): (v: Verdict)
    requires g.Valid() && WellFormed(g, e) && sk.Valid(g.size) && s.Valid() && s.cursor <= g.size
    decreases fuel, e, 4, 0
  {
    match Meaning(g, e, sk, s, fuel) case Ok(_) => Yes case No => Nope case Out => Unknown
  }

  ghost function FastProbe(g: Grammar, e: Expr, sk: Skipper, s: View, fuel: nat): (v: Verdict)
    requires g.Valid() && WellFormed(g, e) && sk.Valid(g.size) && s.Valid() && s.cursor <= g.size
    decreases fuel, e, 6, 0
  {
    match e
    case Group(_) => FastProbeGroup(g, e, 0, sk, s, fuel)
    case Choice(_) => ProbeChoice(g, e, 0, true, sk, s, fuel)
    case Repeat(_, _, inner) => FastProbe(g, inner, sk, s, fuel)
    case Assign(_, inner) => FastProbe(g, inner, sk, s, fuel)
    case Call(rule) =>
      if fuel == 0 then Unknown
      else
        var local := if g.rules[rule].skipper.Some? then g.rules[rule].skipper.value else sk;
        FastProbe(g, g.rules[rule].body, local, s, fuel - 1)
    case Skipped(_, inner) => if ProbesItsStart(inner) then FastProbe(g, inner, sk, s, fuel) else Probe(g, e, sk, s, fuel)
    case _ => Probe(g, e, sk, s, fuel)
  }

  /** A group starts where its first part does, or past it when that part is nullable. */
  ghost function FastProbeGroup(g: Grammar, e: Expr, i: nat, sk: Skipper, s: View, fuel: nat): (v: Verdict)
    requires g.Valid() && WellFormed(g, e) && sk.Valid(g.size) && s.Valid() && s.cursor <= g.size
    requires e.Group? && i <= |e.parts|
    decreases fuel, e, 2, |e.parts| - i
  {
    if i == |e.parts| then Nope
    else
      var v := FastProbe(g, e.parts[i], sk, s, fuel);
      if v.Nope? && Nullable(g, e.parts[i]) then FastProbeGroup(g, e, i + 1, sk, s, fuel) else v
  }

  ghost function ProbeChoice(g: Grammar, e: Expr, i: nat, fast: bool, sk: Skipper, s: View, fuel: nat): (v: Verdict)
    requires g.Valid() && WellFormed(g, e) && sk.Valid(g.size) && s.Valid() && s.cursor <= g.size
    requires e.Choice? && i <= |e.parts|
    decreases fuel, e, 2, |e.parts| - i
  {
    if i == |e.parts| then Nope
    else
      var v := if fast then FastProbe(g, e.parts[i], sk, s, fuel) else Probe(g, e.parts[i], sk, s, fuel);
      if v.Nope? then ProbeChoice(g, e, i + 1, fast, sk, s, fuel) else v
  }
}
