/** When a probe may be trusted.  A probe looks only at how groups, choices and repetitions start, and it
    neither changes to a skipper wrapped around them nor skips between the parts it passes over. */
module PegProbe {
  import opened Options
  import opened StrictContext
  import opened PegExpression
  import opened PegDepth

  // ---- Only the cursor decides ----

  /** Two outcomes of one kind, at one position. */
  ghost predicate Alike(a: Outcome, b: Outcome) {
    match a
    case Ok(s) => b.Ok? && s.cursor == b.state.cursor
    case No => b.No?
    case Out => b.Out?
  }

  /** Neither the tree built so far nor the visible end has a say in whether an expression matches, and up to where. */
  lemma {:induction false} CursorDecides(g: Grammar, e: Expr, sk: Skipper, s: View, t: View, fuel: nat)
    requires Ready(g, e, sk, s) && Ready(g, e, sk, t) && s.cursor == t.cursor
    ensures Alike(Meaning(g, e, sk, s, fuel), Meaning(g, e, sk, t, fuel))
    decreases fuel, e, 3, 0
  {
    hide Nullable, Grown, Skipper.Valid, GroupFrom, ChoiceFrom, UnorderedFrom, RepeatFrom, Probe;
    match e
    case Terminal(_, _, _) =>
    case Marker(_) =>
    case And(inner) => CursorDecidesProbe(g, inner, sk, s, t, fuel);
    case Not(inner) => CursorDecidesProbe(g, inner, sk, s, t, fuel);
    case Assign(_, inner) =>
      if inner.Choice? {
        CursorDecides(g, inner, sk, s.Opened(), t.Opened(), fuel);
      } else {
        CursorDecides(g, inner, sk, s, t, fuel);
      }
    case Group(_) => CursorDecidesGroup(g, e, 0, sk, s, t, fuel);
    case Choice(_) => CursorDecidesChoice(g, e, 0, sk, s, t, fuel);
    case Unordered(parts) => CursorDecidesUnordered(g, e, NoFlags(|parts|), 0, sk, s, t, fuel);
    case Repeat(_, _, _) => CursorDecidesRepeat(g, e, 0, sk, s, t, fuel);
    case Skipped(local, inner) => CursorDecides(g, inner, local, s, t, fuel);
    case Call(rule) =>
      if fuel > 0 {
        var local := if g.rules[rule].skipper.Some? then g.rules[rule].skipper.value else sk;
        CursorDecides(g, g.rules[rule].body, local, s.Opened(), t.Opened(), fuel - 1);
      }
  }

  lemma {:induction false} CursorDecidesGroup(g: Grammar, e: Expr, i: nat, sk: Skipper, s: View, t: View, fuel: nat)
    requires Ready(g, e, sk, s) && Ready(g, e, sk, t) && s.cursor == t.cursor && e.Group? && i <= |e.parts|
    ensures Alike(GroupFrom(g, e, i, sk, s, fuel), GroupFrom(g, e, i, sk, t, fuel))
    decreases fuel, e, 2, |e.parts| - i
  {
    hide Nullable, Meaning;
    if i < |e.parts| {
      var s', t' := Between(i, sk, s), Between(i, sk, t);
      BetweenGrows(g, i, sk, s);
      BetweenGrows(g, i, sk, t);
      CursorDecides(g, e.parts[i], sk, s', t', fuel);
      var r, q := Meaning(g, e.parts[i], sk, s', fuel), Meaning(g, e.parts[i], sk, t', fuel);
      if r.Ok? {
        CursorDecidesGroup(g, e, i + 1, sk, r.state, q.state, fuel);
      }
    }
  }

  lemma {:induction false} CursorDecidesChoice(g: Grammar, e: Expr, i: nat, sk: Skipper, s: View, t: View, fuel: nat)
    requires Ready(g, e, sk, s) && Ready(g, e, sk, t) && s.cursor == t.cursor && e.Choice? && i <= |e.parts|
    ensures Alike(ChoiceFrom(g, e, i, sk, s, fuel), ChoiceFrom(g, e, i, sk, t, fuel))
    decreases fuel, e, 2, |e.parts| - i
  {
    hide Nullable, Meaning;
    if i < |e.parts| {
      CursorDecides(g, e.parts[i], sk, s, t, fuel);
      if Meaning(g, e.parts[i], sk, s, fuel).No? {
        CursorDecidesChoice(g, e, i + 1, sk, s, t, fuel);
      }
    }
  }

  lemma {:induction false} CursorDecidesUnordered(g: Grammar, e: Expr, flags: seq<bool>, count: nat, sk: Skipper, s: View, t: View, fuel: nat)
    requires Ready(g, e, sk, s) && Ready(g, e, sk, t) && s.cursor == t.cursor
    requires e.Unordered? && |flags| == |e.parts| && count <= |e.parts|
    ensures Alike(UnorderedFrom(g, e, flags, count, sk, s, fuel), UnorderedFrom(g, e, flags, count, sk, t, fuel))
    decreases fuel, e, 2, |e.parts| - count
  {
    hide Nullable, Meaning, FirstUnmatched;
    if count < |e.parts| {
      var s', t' := Between(count, sk, s), Between(count, sk, t);
      BetweenGrows(g, count, sk, s);
      BetweenGrows(g, count, sk, t);
      CursorDecidesFirstUnmatched(g, e, 0, flags, sk, s', t', fuel);
      var (i, r) := FirstUnmatched(g, e, 0, flags, sk, s', fuel);
      var (_, q) := FirstUnmatched(g, e, 0, flags, sk, t', fuel);
      if r.Ok? {
        CursorDecidesUnordered(g, e, flags[i := true], count + 1, sk, r.state, q.state, fuel);
      }
    }
  }

  lemma {:induction false} CursorDecidesFirstUnmatched(g: Grammar, e: Expr, i: nat, flags: seq<bool>, sk: Skipper, s: View, t: View, fuel: nat)
    requires Ready(g, e, sk, s) && Ready(g, e, sk, t) && s.cursor == t.cursor
    requires e.Unordered? && |flags| == |e.parts| && i <= |e.parts|
    ensures var r, q := FirstUnmatched(g, e, i, flags, sk, s, fuel), FirstUnmatched(g, e, i, flags, sk, t, fuel);
            r.0 == q.0 && Alike(r.1, q.1)
    decreases fuel, e, 1, |e.parts| - i
  {
    hide Nullable, Meaning;
    if i < |e.parts| {
      if flags[i] {
        CursorDecidesFirstUnmatched(g, e, i + 1, flags, sk, s, t, fuel);
      } else {
        CursorDecides(g, e.parts[i], sk, s, t, fuel);
        if Meaning(g, e.parts[i], sk, s, fuel).No? {
          CursorDecidesFirstUnmatched(g, e, i + 1, flags, sk, s, t, fuel);
        }
      }
    }
  }

  lemma {:induction false} CursorDecidesRepeat(g: Grammar, e: Expr, count: nat, sk: Skipper, s: View, t: View, fuel: nat)
    requires Ready(g, e, sk, s) && Ready(g, e, sk, t) && s.cursor == t.cursor && e.Repeat?
    ensures Alike(RepeatFrom(g, e, count, sk, s, fuel), RepeatFrom(g, e, count, sk, t, fuel))
    decreases fuel, e, 2, g.size - s.cursor
  {
    hide Nullable, Meaning;
    if e.max != Some(count) {
      var s', t' := Between(count, sk, s), Between(count, sk, t);
      BetweenGrows(g, count, sk, s);
      BetweenGrows(g, count, sk, t);
      CursorDecides(g, e.inner, sk, s', t', fuel);
      var r, q := Meaning(g, e.inner, sk, s', fuel), Meaning(g, e.inner, sk, t', fuel);
      if r.Ok? {
        CursorDecidesRepeat(g, e, count + 1, sk, r.state, q.state, fuel);
      }
    }
  }

  lemma {:induction false} CursorDecidesProbe(g: Grammar, e: Expr, sk: Skipper, s: View, t: View, fuel: nat)
    requires Ready(g, e, sk, s) && Ready(g, e, sk, t) && s.cursor == t.cursor
    ensures Probe(g, e, sk, s, fuel) == Probe(g, e, sk, t, fuel)
    decreases fuel, e, 5, 0
  {
    hide Nullable, Meaning, FastProbe, FastProbeGroup, ProbeChoice;
    match e
    case Marker(Create(_)) =>
    case And(inner) => CursorDecidesProbe(g, inner, sk, s, t, fuel);
    case Not(inner) => CursorDecidesProbe(g, inner, sk, s, t, fuel);
    case Group(_) => CursorDecidesFastGroup(g, e, 0, sk, s, t, fuel);
    case Choice(_) => CursorDecidesProbeChoice(g, e, 0, false, sk, s, t, fuel);
    case Repeat(_, _, inner) => CursorDecidesFastProbe(g, inner, sk, s, t, fuel);
    case Skipped(_, inner) =>
      if ProbesItsStart(inner) {
        CursorDecidesProbe(g, inner, sk, s, t, fuel);
      } else {
        CursorDecides(g, e, sk, s, t, fuel);
      }
    case _ => CursorDecides(g, e, sk, s, t, fuel);
  }

  lemma {:induction false} CursorDecidesFastProbe(g: Grammar, e: Expr, sk: Skipper, s: View, t: View, fuel: nat)
    requires Ready(g, e, sk, s) && Ready(g, e, sk, t) && s.cursor == t.cursor
    ensures FastProbe(g, e, sk, s, fuel) == FastProbe(g, e, sk, t, fuel)
    decreases fuel, e, 6, 0
  {
    hide Nullable, Meaning, Probe, FastProbeGroup, ProbeChoice;
    match e
    case Group(_) => CursorDecidesFastGroup(g, e, 0, sk, s, t, fuel);
    case Choice(_) => CursorDecidesProbeChoice(g, e, 0, true, sk, s, t, fuel);
    case Repeat(_, _, inner) => CursorDecidesFastProbe(g, inner, sk, s, t, fuel);
    case Assign(_, inner) => CursorDecidesFastProbe(g, inner, sk, s, t, fuel);
    case Call(rule) =>
      if fuel > 0 {
        var local := if g.rules[rule].skipper.Some? then g.rules[rule].skipper.value else sk;
        CursorDecidesFastProbe(g, g.rules[rule].body, local, s, t, fuel - 1);
      }
    case Skipped(_, inner) =>
      if ProbesItsStart(inner) {
        CursorDecidesFastProbe(g, inner, sk, s, t, fuel);
      } else {
        CursorDecidesProbe(g, e, sk, s, t, fuel);
      }
    case _ => CursorDecidesProbe(g, e, sk, s, t, fuel);
  }

  lemma {:induction false} CursorDecidesFastGroup(g: Grammar, e: Expr, i: nat, sk: Skipper, s: View, t: View, fuel: nat)
    requires Ready(g, e, sk, s) && Ready(g, e, sk, t) && s.cursor == t.cursor && e.Group? && i <= |e.parts|
    ensures FastProbeGroup(g, e, i, sk, s, fuel) == FastProbeGroup(g, e, i, sk, t, fuel)
    decreases fuel, e, 2, |e.parts| - i
  {
    hide Nullable, FastProbe;
    if i < |e.parts| {
      CursorDecidesFastProbe(g, e.parts[i], sk, s, t, fuel);
      CursorDecidesFastGroup(g, e, i + 1, sk, s, t, fuel);
    }
  }

  lemma {:induction false} CursorDecidesProbeChoice(g: Grammar, e: Expr, i: nat, fast: bool, sk: Skipper, s: View, t: View, fuel: nat)
    requires Ready(g, e, sk, s) && Ready(g, e, sk, t) && s.cursor == t.cursor && e.Choice? && i <= |e.parts|
    ensures ProbeChoice(g, e, i, fast, sk, s, fuel) == ProbeChoice(g, e, i, fast, sk, t, fuel)
    decreases fuel, e, 2, |e.parts| - i
  {
    hide Nullable, FastProbe, Probe;
    if i < |e.parts| {
      if fast {
        CursorDecidesFastProbe(g, e.parts[i], sk, s, t, fuel);
      } else {
        CursorDecidesProbe(g, e.parts[i], sk, s, t, fuel);
      }
      CursorDecidesProbeChoice(g, e, i + 1, fast, sk, s, t, fuel);
    }
  }

  // ---- A probe turns nothing away that would advance ----

  /** Where a probe looks through a wrapped skipper, the skipper is the one around it anyway. */
  ghost predicate SkipsAlike(e: Expr, sk: Skipper) {
    match e
    case Assign(_, inner) => SkipsAlike(inner, sk)
    case Group(parts) => forall i: nat :: i < |parts| ==> SkipsAlike(parts[i], sk)
    case Choice(parts) => forall i: nat :: i < |parts| ==> SkipsAlike(parts[i], sk)
    case Repeat(_, _, inner) => SkipsAlike(inner, sk)
    case Skipped(own, inner) => ProbesItsStart(inner) ==> own == sk && SkipsAlike(inner, sk)
    case _ => true
  }

  ghost predicate RulesSkipAlike(g: Grammar, sk: Skipper) {
    forall r: nat :: r < |g.rules| ==>
      SkipsAlike(g.rules[r].body, sk) && (g.rules[r].skipper.Some? ==> g.rules[r].skipper.value == sk)
  }

  /** There is nothing to skip here. */
  predicate Idle(sk: Skipper, cursor: nat) { sk.next(cursor) == cursor }

  ghost predicate Probed(g: Grammar, e: Expr, sk: Skipper, s: View) {
    Ready(g, e, sk, s) && RulesSkipAlike(g, sk) && SkipsAlike(e, sk) && Idle(sk, s.cursor)
  }

  ghost predicate Advances(r: Outcome, s: View) {
    r.Ok? && s.cursor < r.state.cursor
  }

  lemma {:induction false} ProbeAdmits(g: Grammar, e: Expr, sk: Skipper, s: View, fuel: nat)
    requires Probed(g, e, sk, s) && Advances(Meaning(g, e, sk, s, fuel), s)
    ensures !Probe(g, e, sk, s, fuel).Nope?
    decreases fuel, e, 5, 0
  {
    hide Nullable, Grown, Skipper.Valid, GroupFrom, ChoiceFrom, UnorderedFrom, RepeatFrom, FastProbe, FastProbeGroup, ProbeChoice;
    match e
    case Group(_) => GroupAdmits(g, e, 0, sk, s, s, fuel);
    case Choice(_) => ChoiceAdmits(g, e, 0, false, sk, s, fuel);
    case Repeat(_, _, _) => RepeatAdmits(g, e, sk, s, fuel);
    case Skipped(_, inner) =>
      if ProbesItsStart(inner) {
        ProbeAdmits(g, inner, sk, s, fuel);
      }
    case _ =>
  }

  lemma {:induction false} FastProbeAdmits(g: Grammar, e: Expr, sk: Skipper, s: View, fuel: nat)
    requires Probed(g, e, sk, s) && Advances(Meaning(g, e, sk, s, fuel), s)
    ensures !FastProbe(g, e, sk, s, fuel).Nope?
    decreases fuel, e, 6, 0
  {
    hide Nullable, Grown, Skipper.Valid, GroupFrom, ChoiceFrom, UnorderedFrom, RepeatFrom, Probe, FastProbeGroup, ProbeChoice;
    match e
    case Group(_) => GroupAdmits(g, e, 0, sk, s, s, fuel);
    case Choice(_) => ChoiceAdmits(g, e, 0, true, sk, s, fuel);
    case Repeat(_, _, _) => RepeatAdmits(g, e, sk, s, fuel);
    case Assign(_, inner) =>
      CursorDecides(g, inner, sk, s.Opened(), s, fuel);
      FastProbeAdmits(g, inner, sk, s, fuel);
    case Call(rule) =>
      var body := g.rules[rule].body;
      CursorDecides(g, body, sk, s.Opened(), s, fuel - 1);
      FastProbeAdmits(g, body, sk, s, fuel - 1);
    case Skipped(_, inner) =>
      if ProbesItsStart(inner) {
        FastProbeAdmits(g, inner, sk, s, fuel);
      } else {
        ProbeAdmits(g, e, sk, s, fuel);
      }
    case Terminal(_, _, _) => ProbeAdmits(g, e, sk, s, fuel);
    case Unordered(_) => ProbeAdmits(g, e, sk, s, fuel);
    case _ =>
  }

  /** `t` is where the parts before `i` have led without advancing. */
  lemma {:induction false} GroupAdmits(g: Grammar, e: Expr, i: nat, sk: Skipper, s: View, t: View, fuel: nat)
    requires Probed(g, e, sk, s) && e.Group? && i <= |e.parts| && t.Valid() && t.cursor == s.cursor
    requires Advances(GroupFrom(g, e, i, sk, t, fuel), s)
    ensures !FastProbeGroup(g, e, i, sk, s, fuel).Nope?
    decreases fuel, e, 2, |e.parts| - i
  {
    hide Nullable, Meaning, FastProbe;
    if i < |e.parts| {
      var from := Between(i, sk, t);
      BetweenGrows(g, i, sk, t);
      var r := Meaning(g, e.parts[i], sk, from, fuel);
      if s.cursor < r.state.cursor {
        FastProbeAdmits(g, e.parts[i], sk, from, fuel);
        CursorDecidesFastProbe(g, e.parts[i], sk, from, s, fuel);
      } else {
        GroupAdmits(g, e, i + 1, sk, s, r.state, fuel);
      }
    }
  }

  lemma {:induction false} ChoiceAdmits(g: Grammar, e: Expr, i: nat, fast: bool, sk: Skipper, s: View, fuel: nat)
    requires Probed(g, e, sk, s) && e.Choice? && i <= |e.parts| && Advances(ChoiceFrom(g, e, i, sk, s, fuel), s)
    ensures !ProbeChoice(g, e, i, fast, sk, s, fuel).Nope?
    decreases fuel, e, 2, |e.parts| - i
  {
    hide Nullable, Meaning, FastProbe, Probe;
    if Meaning(g, e.parts[i], sk, s, fuel).No? {
      ChoiceAdmits(g, e, i + 1, fast, sk, s, fuel);
    } else if fast {
      FastProbeAdmits(g, e.parts[i], sk, s, fuel);
    } else {
      ProbeAdmits(g, e.parts[i], sk, s, fuel);
    }
  }

  /** A repetition advances only if its first item does. */
  lemma {:induction false} RepeatAdmits(g: Grammar, e: Expr, sk: Skipper, s: View, fuel: nat)
    requires Probed(g, e, sk, s) && e.Repeat? && Advances(RepeatFrom(g, e, 0, sk, s, fuel), s)
    ensures !FastProbe(g, e.inner, sk, s, fuel).Nope?
    decreases fuel, e, 2, 0
  {
    hide Meaning, FastProbe;
    assert Meaning(g, e.inner, sk, Between(0, sk, s), fuel).Ok?;
    FastProbeAdmits(g, e.inner, sk, s, fuel);
  }

  /** With one skipper and nothing to skip, neither probe turns away a non-nullable expression that parses. */
  lemma ProbesAdmitWhatParses(g: Grammar, e: Expr, sk: Skipper, s: View, fuel: nat)
    requires Probed(g, e, sk, s) && !Nullable(g, e) && Meaning(g, e, sk, s, fuel).Ok?
    ensures !Probe(g, e, sk, s, fuel).Nope? && !FastProbe(g, e, sk, s, fuel).Nope?
  {
    ProbeAdmits(g, e, sk, s, fuel);
    FastProbeAdmits(g, e, sk, s, fuel);
  }

  /** So a predicate errs on one side only: what would parse is never denied by `And`, nor let through by `Not`. */
  lemma LookaheadErrsOnOneSide(g: Grammar, e: Expr, sk: Skipper, s: View, fuel: nat)
    requires Probed(g, e, sk, s) && !Nullable(g, e) && Meaning(g, e, sk, s, fuel).Ok?
    ensures !Meaning(g, And(e), sk, s, fuel).No? && !Meaning(g, Not(e), sk, s, fuel).Ok?
  {
    ProbesAdmitWhatParses(g, e, sk, s, fuel);
  }

  // ---- Both conditions are needed, and so is not being nullable ----

  /** A terminal that matches at `from` only, one character long. */
  function At(from: nat): Expr {
    Terminal(from, p => if p == from then Some(from + 1) else None, false)
  }

  /** Skips the character at 1. */
  function SkipOne(): Skipper {
    Skipper(p => if p == 1 then 2 else p, p => [])
  }

  function SkipNone(): Skipper {
    Skipper(p => p, p => [])
  }

  const NO_RULES := Grammar(3, [])

  /** Two parts in any order, one at 0 and one at 2. */
  function TwoParts(): Expr { Unordered([At(0), At(2)]) }

  /** The two parts once, under a skipper that skips between them. */
  function Wrapped(): Expr { Skipped(SkipOne(), Repeat(1, Some(1), TwoParts())) }

  ghost predicate OneOfTwo(sk: Skipper) { sk == SkipOne() || sk == SkipNone() }

  lemma PartIsReady(from: nat, sk: Skipper, s: View)
    requires from < 3 && OneOfTwo(sk) && s.Valid() && s.cursor <= 3
    ensures Ready(NO_RULES, At(from), sk, s) && !Nullable(NO_RULES, At(from))
  {
  }

  lemma PartsAreReady(sk: Skipper, s: View)
    requires OneOfTwo(sk) && s.Valid() && s.cursor <= 3
    ensures Ready(NO_RULES, TwoParts(), sk, s)
  {
    PartIsReady(0, sk, s);
    PartIsReady(2, sk, s);
    hide At, Skipper.Valid;
  }

  lemma WrappedIsReady(s: View)
    requires s.Valid() && s.cursor <= 3
    ensures Ready(NO_RULES, Repeat(1, Some(1), TwoParts()), SkipOne(), s) && Ready(NO_RULES, Wrapped(), SkipNone(), s)
    ensures Ready(NO_RULES, Repeat(1, Some(1), TwoParts()), SkipNone(), s)
  {
    PartsAreReady(SkipOne(), s);
    PartsAreReady(SkipNone(), s);
    hide TwoParts, SkipOne, SkipNone;
    assert !Nullable(NO_RULES, TwoParts());
  }

  lemma PartMatches(from: nat, sk: Skipper, s: View, fuel: nat)
    requires from < 3 && OneOfTwo(sk) && s.Valid() && s.cursor <= 3
    ensures Ready(NO_RULES, At(from), sk, s)
    ensures var r := Meaning(NO_RULES, At(from), sk, s, fuel);
            if s.cursor == from then r.Ok? && r.state.Valid() && r.state.cursor == from + 1 else r.No?
  {
    PartIsReady(from, sk, s);
  }

  lemma PartChosen(flags: seq<bool>, sk: Skipper, s: View, fuel: nat)
    requires |flags| == 2 && OneOfTwo(sk) && s.Valid() && s.cursor <= 3
    ensures Ready(NO_RULES, TwoParts(), sk, s)
    ensures var (i, r) := FirstUnmatched(NO_RULES, TwoParts(), 0, flags, sk, s, fuel);
            if !flags[0] && s.cursor == 0 then i == 0 && r.Ok? && r.state.Valid() && r.state.cursor == 1
            else if !flags[1] && s.cursor == 2 then i == 1 && r.Ok? && r.state.Valid() && r.state.cursor == 3
            else r.No?
  {
    PartsAreReady(sk, s);
    PartMatches(0, sk, s, fuel);
    PartMatches(2, sk, s, fuel);
    hide At, Meaning, WellFormed, Skipper.Valid;
    assert TwoParts().parts[0] == At(0) && TwoParts().parts[1] == At(2);
    assert FirstUnmatched(NO_RULES, TwoParts(), 2, flags, sk, s, fuel) == (2, No);
  }

  const ONE: View := View(1, 1, [[]])
  const START: View := View(0, 0, [[]])

  /** Both parts match in turn if what lies between them is skipped. */
  lemma TwoPartsMatch(sk: Skipper, fuel: nat)
    requires OneOfTwo(sk)
    ensures Ready(NO_RULES, TwoParts(), sk, START)
    ensures sk == SkipOne() ==> Meaning(NO_RULES, TwoParts(), sk, START, fuel).Ok?
    ensures sk == SkipNone() ==> Meaning(NO_RULES, TwoParts(), sk, START, fuel).No?
  {
    PartsAreReady(sk, START);
    PartChosen([false, false], sk, START, fuel);
    var (i, r) := FirstUnmatched(NO_RULES, TwoParts(), 0, [false, false], sk, START, fuel);
    assert NoFlags(2) == [false, false] && [false, false][0 := true] == [true, false];
    PartsAreReady(sk, r.state);
    var from := AfterSkip(sk, r.state);
    PartChosen([true, false], sk, from, fuel);
    hide FirstUnmatched, WellFormed, Grown;
    assert UnorderedFrom(NO_RULES, TwoParts(), [false, false], 0, sk, START, fuel)
        == UnorderedFrom(NO_RULES, TwoParts(), [true, false], 1, sk, r.state, fuel);
    var (j, q) := FirstUnmatched(NO_RULES, TwoParts(), 0, [true, false], sk, from, fuel);
    if q.Ok? {
      PartsAreReady(sk, q.state);
      assert UnorderedFrom(NO_RULES, TwoParts(), [true, false], 1, sk, r.state, fuel)
          == UnorderedFrom(NO_RULES, TwoParts(), [true, false][1 := true], 2, sk, q.state, fuel);
    }
  }

  /** A wrapped skipper is not used in a probe of what it wraps: this parses, and both probes turn it away. */
  lemma WrappedSkipperMatters(fuel: nat)
    ensures Ready(NO_RULES, Wrapped(), SkipNone(), START) && !Nullable(NO_RULES, Wrapped()) && Idle(SkipNone(), 0)
    ensures Meaning(NO_RULES, Wrapped(), SkipNone(), START, fuel).Ok?
    ensures Probe(NO_RULES, Wrapped(), SkipNone(), START, fuel).Nope? && FastProbe(NO_RULES, Wrapped(), SkipNone(), START, fuel).Nope?
  {
    WrappedIsReady(START);
    TwoPartsMatch(SkipOne(), fuel);
    TwoPartsMatch(SkipNone(), fuel);
    hide WellFormed, UnorderedFrom, SkipOne, SkipNone;
    var items := Repeat(1, Some(1), TwoParts());
    var r := Meaning(NO_RULES, TwoParts(), SkipOne(), START, fuel);
    assert RepeatFrom(NO_RULES, items, 0, SkipOne(), START, fuel) == RepeatFrom(NO_RULES, items, 1, SkipOne(), r.state, fuel);
    assert Meaning(NO_RULES, items, SkipOne(), START, fuel).Ok?;
    assert ParseProbe(NO_RULES, TwoParts(), SkipNone(), START, fuel).Nope?;
    assert Probe(NO_RULES, TwoParts(), SkipNone(), START, fuel).Nope?;
    assert FastProbe(NO_RULES, TwoParts(), SkipNone(), START, fuel).Nope?;
    assert FastProbe(NO_RULES, items, SkipNone(), START, fuel).Nope?;
  }

  /** An optional part at 0 and a part at 2. */
  function Led(): Expr { Group([Repeat(0, Some(1), At(0)), At(2)]) }

  lemma LedIsReady(s: View)
    requires s.Valid() && s.cursor <= 3
    ensures Ready(NO_RULES, Repeat(0, Some(1), At(0)), SkipOne(), s) && Ready(NO_RULES, Led(), SkipOne(), s) && !Nullable(NO_RULES, Led())
  {
    PartIsReady(0, SkipOne(), s);
    PartIsReady(2, SkipOne(), s);
    hide At, SkipOne;
    assert Led().parts[0] == Repeat(0, Some(1), At(0)) && Led().parts[1] == At(2);
  }

  /** A nullable expression that parses without advancing may be turned away. */
  lemma NullableMatters(fuel: nat)
    ensures var e := Repeat(0, Some(1), At(0));
            && Ready(NO_RULES, e, SkipOne(), ONE) && Nullable(NO_RULES, e) && SkipsAlike(e, SkipOne())
            && Meaning(NO_RULES, e, SkipOne(), ONE, fuel) == Ok(ONE)
            && FastProbe(NO_RULES, At(0), SkipOne(), ONE, fuel).Nope? && FastProbe(NO_RULES, e, SkipOne(), ONE, fuel).Nope?
  {
    LedIsReady(ONE);
    PartMatches(0, SkipOne(), ONE, fuel);
    hide At, WellFormed, SkipOne;
    assert RepeatFrom(NO_RULES, Repeat(0, Some(1), At(0)), 0, SkipOne(), ONE, fuel) == Ok(ONE);
    assert ParseProbe(NO_RULES, At(0), SkipOne(), ONE, fuel).Nope?;
    assert Probe(NO_RULES, At(0), SkipOne(), ONE, fuel).Nope?;
  }

  lemma LedParses(from: View, fuel: nat)
    requires from == AfterSkip(SkipOne(), ONE)
    ensures Ready(NO_RULES, Led(), SkipOne(), ONE) && Meaning(NO_RULES, Led(), SkipOne(), ONE, fuel).Ok?
  {
    LedIsReady(ONE);
    NullableMatters(fuel);
    PartMatches(2, SkipOne(), from, fuel);
    var r := Meaning(NO_RULES, At(2), SkipOne(), from, fuel);
    LedIsReady(r.state);
    hide At, WellFormed, SkipOne, Nullable, FastProbe;
    assert GroupFrom(NO_RULES, Led(), 2, SkipOne(), r.state, fuel) == Ok(r.state);
    assert GroupFrom(NO_RULES, Led(), 1, SkipOne(), ONE, fuel).Ok?;
    assert GroupFrom(NO_RULES, Led(), 0, SkipOne(), ONE, fuel).Ok?;
  }

  lemma LedProbes(fuel: nat)
    ensures Ready(NO_RULES, Led(), SkipOne(), ONE)
    ensures Probe(NO_RULES, Led(), SkipOne(), ONE, fuel).Nope? && FastProbe(NO_RULES, Led(), SkipOne(), ONE, fuel).Nope?
  {
    LedIsReady(ONE);
    NullableMatters(fuel);
    PartMatches(2, SkipOne(), ONE, fuel);
    assert ParseProbe(NO_RULES, At(2), SkipOne(), ONE, fuel).Nope?;
    assert Probe(NO_RULES, At(2), SkipOne(), ONE, fuel).Nope?;
    assert FastProbe(NO_RULES, At(2), SkipOne(), ONE, fuel).Nope?;
    assert Nullable(NO_RULES, Led().parts[0]);
    hide At, WellFormed, SkipOne, Nullable, FastProbe;
    assert FastProbeGroup(NO_RULES, Led(), 2, SkipOne(), ONE, fuel).Nope?;
    assert FastProbeGroup(NO_RULES, Led(), 1, SkipOne(), ONE, fuel).Nope?;
    assert FastProbeGroup(NO_RULES, Led(), 0, SkipOne(), ONE, fuel).Nope?;
  }

  /** A probe does not skip past a part that is not there: with trivia at the cursor this parses, and both probes turn it away. */
  lemma TriviaMatters(fuel: nat)
    ensures Ready(NO_RULES, Led(), SkipOne(), ONE) && !Nullable(NO_RULES, Led()) && SkipsAlike(Led(), SkipOne())
    ensures RulesSkipAlike(NO_RULES, SkipOne()) && !Idle(SkipOne(), 1)
    ensures Meaning(NO_RULES, Led(), SkipOne(), ONE, fuel).Ok?
    ensures Probe(NO_RULES, Led(), SkipOne(), ONE, fuel).Nope? && FastProbe(NO_RULES, Led(), SkipOne(), ONE, fuel).Nope?
  {
    LedIsReady(ONE);
    LedParses(AfterSkip(SkipOne(), ONE), fuel);
    LedProbes(fuel);
  }
}
