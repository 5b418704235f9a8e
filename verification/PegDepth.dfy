/** A meaning reached within some call depth is the meaning at every greater depth. */
module PegDepth {
  import opened Options
  import opened StrictContext
  import opened PegExpression

  ghost predicate Ready(g: Grammar, e: Expr, sk: Skipper, s: View) {
    g.Valid() && WellFormed(g, e) && sk.Valid(g.size) && s.Valid() && s.cursor <= g.size
  }

  lemma {:induction false} DeeperMeaning(g: Grammar, e: Expr, sk: Skipper, s: View, fuel: nat)
    requires Ready(g, e, sk, s) && !Meaning(g, e, sk, s, fuel).Out?
    ensures Meaning(g, e, sk, s, fuel + 1) == Meaning(g, e, sk, s, fuel)
    decreases fuel, e, 3, 0
  {
    hide Nullable, View.Append, Closed, FirstRelabelled, Grown, Skipper.Valid;
    hide GroupFrom, ChoiceFrom, UnorderedFrom, RepeatFrom, Probe;
    match e
    case Terminal(_, _, _) =>
    case Marker(_) =>
    case And(inner) => DeeperProbe(g, inner, sk, s, fuel);
    case Not(inner) => DeeperProbe(g, inner, sk, s, fuel);
    case Assign(_, inner) => DeeperMeaning(g, inner, sk, if inner.Choice? then s.Opened() else s, fuel);
    case Group(_) => DeeperGroup(g, e, 0, sk, s, fuel);
    case Choice(_) => DeeperChoice(g, e, 0, sk, s, fuel);
    case Unordered(parts) => DeeperUnordered(g, e, NoFlags(|parts|), 0, sk, s, fuel);
    case Repeat(_, _, _) => DeeperRepeat(g, e, 0, sk, s, fuel);
    case Skipped(local, inner) => DeeperMeaning(g, inner, local, s, fuel);
    case Call(rule) =>
      var local := if g.rules[rule].skipper.Some? then g.rules[rule].skipper.value else sk;
      DeeperMeaning(g, g.rules[rule].body, local, s.Opened(), fuel - 1);
  }

  lemma {:induction false} DeeperGroup(g: Grammar, e: Expr, i: nat, sk: Skipper, s: View, fuel: nat)
    requires Ready(g, e, sk, s) && e.Group? && i <= |e.parts| && !GroupFrom(g, e, i, sk, s, fuel).Out?
    ensures GroupFrom(g, e, i, sk, s, fuel + 1) == GroupFrom(g, e, i, sk, s, fuel)
    decreases fuel, e, 2, |e.parts| - i
  {
    if i < |e.parts| {
      var from := if i == 0 then s else AfterSkip(sk, s);
      DeeperMeaning(g, e.parts[i], sk, from, fuel);
      var r := Meaning(g, e.parts[i], sk, from, fuel);
      if r.Ok? {
        DeeperGroup(g, e, i + 1, sk, r.state, fuel);
      }
    }
  }

  lemma {:induction false} DeeperChoice(g: Grammar, e: Expr, i: nat, sk: Skipper, s: View, fuel: nat)
    requires Ready(g, e, sk, s) && e.Choice? && i <= |e.parts| && !ChoiceFrom(g, e, i, sk, s, fuel).Out?
    ensures ChoiceFrom(g, e, i, sk, s, fuel + 1) == ChoiceFrom(g, e, i, sk, s, fuel)
    decreases fuel, e, 2, |e.parts| - i
  {
    if i < |e.parts| {
      DeeperMeaning(g, e.parts[i], sk, s, fuel);
      if Meaning(g, e.parts[i], sk, s, fuel).No? {
        DeeperChoice(g, e, i + 1, sk, s, fuel);
      }
    }
  }

  lemma {:induction false} DeeperUnordered(g: Grammar, e: Expr, flags: seq<bool>, count: nat, sk: Skipper, s: View, fuel: nat)
    requires Ready(g, e, sk, s) && e.Unordered? && |flags| == |e.parts| && count <= |e.parts|
    requires !UnorderedFrom(g, e, flags, count, sk, s, fuel).Out?
    ensures UnorderedFrom(g, e, flags, count, sk, s, fuel + 1) == UnorderedFrom(g, e, flags, count, sk, s, fuel)
    decreases fuel, e, 2, |e.parts| - count
  {
    if count < |e.parts| {
      var from := Between(count, sk, s);
      DeeperFirstUnmatched(g, e, 0, flags, sk, from, fuel);
      var (i, r) := FirstUnmatched(g, e, 0, flags, sk, from, fuel);
      if r.Ok? {
        DeeperUnordered(g, e, flags[i := true], count + 1, sk, r.state, fuel);
      }
    }
  }

  lemma {:induction false} DeeperFirstUnmatched(g: Grammar, e: Expr, i: nat, flags: seq<bool>, sk: Skipper, s: View, fuel: nat)
    requires Ready(g, e, sk, s) && e.Unordered? && |flags| == |e.parts| && i <= |e.parts|
    requires !FirstUnmatched(g, e, i, flags, sk, s, fuel).1.Out?
    ensures FirstUnmatched(g, e, i, flags, sk, s, fuel + 1) == FirstUnmatched(g, e, i, flags, sk, s, fuel)
    decreases fuel, e, 1, |e.parts| - i
  {
    if i < |e.parts| {
      if flags[i] {
        DeeperFirstUnmatched(g, e, i + 1, flags, sk, s, fuel);
      } else {
        DeeperMeaning(g, e.parts[i], sk, s, fuel);
        if Meaning(g, e.parts[i], sk, s, fuel).No? {
          DeeperFirstUnmatched(g, e, i + 1, flags, sk, s, fuel);
        }
      }
    }
  }

  lemma {:induction false} DeeperRepeat(g: Grammar, e: Expr, count: nat, sk: Skipper, s: View, fuel: nat)
    requires Ready(g, e, sk, s) && e.Repeat? && !RepeatFrom(g, e, count, sk, s, fuel).Out?
    ensures RepeatFrom(g, e, count, sk, s, fuel + 1) == RepeatFrom(g, e, count, sk, s, fuel)
    decreases fuel, e, 2, g.size - s.cursor
  {
    if e.max != Some(count) {
      var from := Between(count, sk, s);
      DeeperMeaning(g, e.inner, sk, from, fuel);
      var r := Meaning(g, e.inner, sk, from, fuel);
      if r.Ok? {
        DeeperRepeat(g, e, count + 1, sk, r.state, fuel);
      }
    }
  }

  lemma {:induction false} DeeperProbe(g: Grammar, e: Expr, sk: Skipper, s: View, fuel: nat)
    requires Ready(g, e, sk, s) && !Probe(g, e, sk, s, fuel).Unknown?
    ensures Probe(g, e, sk, s, fuel + 1) == Probe(g, e, sk, s, fuel)
    decreases fuel, e, 5, 0
  {
    match e
    case Marker(Create(_)) =>
    case And(inner) => DeeperProbe(g, inner, sk, s, fuel);
    case Not(inner) => DeeperProbe(g, inner, sk, s, fuel);
    case Group(_) => DeeperFastGroup(g, e, 0, sk, s, fuel);
    case Choice(_) => DeeperProbeChoice(g, e, 0, false, sk, s, fuel);
    case Repeat(_, _, inner) => DeeperFastProbe(g, inner, sk, s, fuel);
    case Skipped(_, inner) =>
      if ProbesItsStart(inner) {
        DeeperProbe(g, inner, sk, s, fuel);
      } else {
        DeeperMeaning(g, e, sk, s, fuel);
      }
    case _ => DeeperMeaning(g, e, sk, s, fuel);
  }

  lemma {:induction false} DeeperFastProbe(g: Grammar, e: Expr, sk: Skipper, s: View, fuel: nat)
    requires Ready(g, e, sk, s) && !FastProbe(g, e, sk, s, fuel).Unknown?
    ensures FastProbe(g, e, sk, s, fuel + 1) == FastProbe(g, e, sk, s, fuel)
    decreases fuel, e, 6, 0
  {
    match e
    case Group(_) => DeeperFastGroup(g, e, 0, sk, s, fuel);
    case Choice(_) => DeeperProbeChoice(g, e, 0, true, sk, s, fuel);
    case Repeat(_, _, inner) => DeeperFastProbe(g, inner, sk, s, fuel);
    case Assign(_, inner) => DeeperFastProbe(g, inner, sk, s, fuel);
    case Call(rule) =>
      var local := if g.rules[rule].skipper.Some? then g.rules[rule].skipper.value else sk;
      DeeperFastProbe(g, g.rules[rule].body, local, s, fuel - 1);
    case Skipped(_, inner) =>
      if ProbesItsStart(inner) {
        DeeperFastProbe(g, inner, sk, s, fuel);
      } else {
        DeeperProbe(g, e, sk, s, fuel);
      }
    case _ => DeeperProbe(g, e, sk, s, fuel);
  }

  lemma {:induction false} DeeperFastGroup(g: Grammar, e: Expr, i: nat, sk: Skipper, s: View, fuel: nat)
    requires Ready(g, e, sk, s) && e.Group? && i <= |e.parts| && !FastProbeGroup(g, e, i, sk, s, fuel).Unknown?
    ensures FastProbeGroup(g, e, i, sk, s, fuel + 1) == FastProbeGroup(g, e, i, sk, s, fuel)
    decreases fuel, e, 2, |e.parts| - i
  {
    if i < |e.parts| {
      DeeperFastProbe(g, e.parts[i], sk, s, fuel);
      if FastProbe(g, e.parts[i], sk, s, fuel).Nope? && Nullable(g, e.parts[i]) {
        DeeperFastGroup(g, e, i + 1, sk, s, fuel);
      }
    }
  }

  lemma {:induction false} DeeperProbeChoice(g: Grammar, e: Expr, i: nat, fast: bool, sk: Skipper, s: View, fuel: nat)
    requires Ready(g, e, sk, s) && e.Choice? && i <= |e.parts| && !ProbeChoice(g, e, i, fast, sk, s, fuel).Unknown?
    ensures ProbeChoice(g, e, i, fast, sk, s, fuel + 1) == ProbeChoice(g, e, i, fast, sk, s, fuel)
    decreases fuel, e, 2, |e.parts| - i
  {
    if i < |e.parts| {
      if fast {
        DeeperFastProbe(g, e.parts[i], sk, s, fuel);
      } else {
        DeeperProbe(g, e.parts[i], sk, s, fuel);
      }
      var v := if fast then FastProbe(g, e.parts[i], sk, s, fuel) else Probe(g, e.parts[i], sk, s, fuel);
      if v.Nope? {
        DeeperProbeChoice(g, e, i + 1, fast, sk, s, fuel);
      }
    }
  }

  /** Two call depths that both suffice give the same outcome. */
  lemma {:induction false} MeaningIsOne(g: Grammar, e: Expr, sk: Skipper, s: View, low: nat, high: nat)
    requires Ready(g, e, sk, s) && low <= high && !Meaning(g, e, sk, s, low).Out?
    ensures Meaning(g, e, sk, s, high) == Meaning(g, e, sk, s, low)
    decreases high - low
  {
    if low < high {
      DeeperMeaning(g, e, sk, s, low);
      MeaningIsOne(g, e, sk, s, low + 1, high);
    }
  }
}
