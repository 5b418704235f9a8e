/** Whatever a derivation concludes is what its expression means, at every call depth the derivation needs. */
module PegSoundness {
  import opened Options
  import opened StrictContext
  import opened PegExpression
  import opened PegDepth
  import opened PegDerivation

  lemma {:induction false} DerivedIsMeant(g: Grammar, d: Derivation, s: View, fuel: nat)
    requires Holds(g, d) && d.mode.Parsing? && At(g, d, s) && Height(d) <= fuel
    ensures Meaning(g, d.expr, d.skipper, s, fuel) == Told(s, d.result)
    decreases d, 2, 0
  {
    hide View.Append, Closed, FirstRelabelled, Grown, Nullable, Skipper.Valid;
    hide GroupFrom, ChoiceFrom, UnorderedFrom, RepeatFrom, Probe;
    hide Holds, InTurn, Highest, InNode, Renamed, Joined, FirstOf, Remaining;
    HoldsInside(g, d);
    if |d.premises| == 1 {
      PremiseIsLower(d.premises, 0);
    }
    match d.expr
    case Terminal(_, _, _) =>
    case Marker(_) =>
    case And(inner) =>
      AppendNothing(s);
      ProbeIsMeant(g, d.premises[0], s, fuel);
    case Not(inner) =>
      AppendNothing(s);
      ProbeIsMeant(g, d.premises[0], s, fuel);
    case Assign(id, inner) => AssignIsMeant(g, d, s, fuel);
    case Group(_) => NothingYet(d, s); GroupIsMeant(g, d, 0, s, fuel);
    case Choice(_) => ChoiceIsMeant(g, d, 0, s, fuel);
    case Unordered(parts) => NothingYet(d, s); NoneUsed(d); UnorderedIsMeant(g, d, 0, NoFlags(|parts|), s, fuel);
    case Repeat(_, _, _) => NothingYet(d, s); RepeatIsMeant(g, d, 0, s, fuel);
    case Skipped(local, inner) => DerivedIsMeant(g, d.premises[0], s, fuel);
    case Call(rule) => CallIsMeant(g, d, s, fuel);
  }

  lemma {:induction false} AssignIsMeant(g: Grammar, d: Derivation, s: View, fuel: nat)
    requires Holds(g, d) && d.mode.Parsing? && At(g, d, s) && Height(d) <= fuel && d.expr.Assign?
    ensures Meaning(g, d.expr, d.skipper, s, fuel) == Told(s, d.result)
    decreases d, 1, 0
  {
    hide View.Append, Closed, FirstRelabelled, Grown, Nullable, Skipper.Valid, InNode, Renamed, Highest, Holds;
    AssignHolds(g, d);
    var inner, p := d.expr.inner, d.premises[0];
    PremiseIsLower(d.premises, 0);
    if inner.Choice? {
      DerivedIsMeant(g, p, s.Opened(), fuel);
      InNodeIsMeant(s, p.result, Assignment(d.expr.id));
    } else {
      DerivedIsMeant(g, p, s, fuel);
      RenamedIsMeant(s, p.result, Assignment(d.expr.id));
    }
  }

  lemma {:induction false} CallIsMeant(g: Grammar, d: Derivation, s: View, fuel: nat)
    requires Holds(g, d) && d.mode.Parsing? && At(g, d, s) && Height(d) <= fuel && d.expr.Call?
    ensures Meaning(g, d.expr, d.skipper, s, fuel) == Told(s, d.result)
    decreases d, 1, 0
  {
    hide View.Append, Closed, Grown, Nullable, Skipper.Valid, InNode, Highest, Holds;
    CallHolds(g, d);
    var r, p := d.expr.rule, d.premises[0];
    PremiseIsLower(d.premises, 0);
    DerivedIsMeant(g, p, s.Opened(), fuel - 1);
    InNodeIsMeant(s, p.result, Other(r));
  }

  lemma {:induction false} GroupIsMeant(g: Grammar, d: Derivation, k: nat, s: View, fuel: nat)
    requires Holds(g, d) && d.mode.Parsing? && At(g, d, s) && Height(d) <= fuel && d.expr.Group?
    requires k <= |d.premises| && SoFar(d, k).Reaches? && Ready(g, d.expr, d.skipper, After(s, SoFar(d, k)))
    ensures GroupFrom(g, d.expr, k, d.skipper, After(s, SoFar(d, k)), fuel) == Told(s, d.result)
    decreases d, 1, |d.premises| - k
  {
    hide View.Append, Grown, Nullable, Skipper.Valid, Highest, Meaning, Joined, Between, Holds;
    GroupHolds(g, d);
    if k < |d.premises| {
      var here := After(s, SoFar(d, k));
      var from := Between(k, d.skipper, here);
      ItemStarts(d, k, s);
      BetweenGrows(g, k, d.skipper, here);
      PremiseIsLower(d.premises, k);
      DerivedIsMeant(g, d.premises[k], from, fuel);
      OutcomeGrows(g, here, from, Meaning(g, d.expr.parts[k], d.skipper, from, fuel));
      if d.premises[k].result.Reaches? {
        GroupIsMeant(g, d, k + 1, s, fuel);
      } else {
        LastFails(d, k);
      }
    }
  }

  lemma {:induction false} RepeatIsMeant(g: Grammar, d: Derivation, k: nat, s: View, fuel: nat)
    requires Holds(g, d) && d.mode.Parsing? && At(g, d, s) && Height(d) <= fuel && d.expr.Repeat?
    requires k <= |d.premises| && SoFar(d, k).Reaches? && Ready(g, d.expr, d.skipper, After(s, SoFar(d, k)))
    ensures RepeatFrom(g, d.expr, k, d.skipper, After(s, SoFar(d, k)), fuel) == Told(s, d.result)
    decreases d, 1, |d.premises| - k
  {
    hide View.Append, Grown, Nullable, Skipper.Valid, Highest, Meaning, Joined, Between, Holds;
    RepeatHolds(g, d);
    if k < |d.premises| {
      var here := After(s, SoFar(d, k));
      var from := Between(k, d.skipper, here);
      ItemStarts(d, k, s);
      BetweenGrows(g, k, d.skipper, here);
      PremiseIsLower(d.premises, k);
      DerivedIsMeant(g, d.premises[k], from, fuel);
      OutcomeGrows(g, here, from, Meaning(g, d.expr.inner, d.skipper, from, fuel));
      if d.premises[k].result.Reaches? {
        RepeatIsMeant(g, d, k + 1, s, fuel);
      } else {
        LastFails(d, k);
      }
    }
  }

  lemma {:induction false} ChoiceIsMeant(g: Grammar, d: Derivation, k: nat, s: View, fuel: nat)
    requires Holds(g, d) && d.mode.Parsing? && At(g, d, s) && Height(d) <= fuel && d.expr.Choice?
    requires k <= |d.premises| && forall j: nat :: j < k ==> d.premises[j].result.Fails?
    ensures ChoiceFrom(g, d.expr, k, d.skipper, s, fuel) == Told(s, d.result)
    decreases d, 1, |d.premises| - k
  {
    hide View.Append, Grown, Nullable, Skipper.Valid, Highest, Meaning, Holds;
    ChoiceHolds(g, d);
    if k < |d.premises| {
      PremiseIsLower(d.premises, k);
      DerivedIsMeant(g, d.premises[k], s, fuel);
      if d.premises[k].result.Fails? {
        ChoiceIsMeant(g, d, k + 1, s, fuel);
      }
    }
  }

  lemma {:induction false} UnorderedIsMeant(g: Grammar, d: Derivation, k: nat, flags: seq<bool>, s: View, fuel: nat)
    requires Holds(g, d) && d.mode.Parsing? && At(g, d, s) && Height(d) <= fuel && d.expr.Unordered?
    requires k <= |d.premises| && SoFar(d, k).Reaches? && Ready(g, d.expr, d.skipper, After(s, SoFar(d, k)))
    requires |flags| == |d.expr.parts| && Remaining(d.expr.parts, d.premises, k) == Unmatched(d.expr.parts, flags, 0)
    ensures UnorderedFrom(g, d.expr, flags, k, d.skipper, After(s, SoFar(d, k)), fuel) == Told(s, d.result)
    decreases d, 1, |d.premises| - k
  {
    hide View.Append, Grown, WellFormed, Skipper.Valid, Highest, Meaning;
    hide Joined, Between, FirstUnmatched, UnorderedFrom, Unmatched;
    hide Holds, InTurn, Remaining, Uses;
    UnorderedHolds(g, d);
    var here := After(s, SoFar(d, k));
    if k < |d.premises| {
      ItemStarts(d, k, s);
      BetweenGrows(g, k, d.skipper, here);
      UnorderedUnfolds(g, d.expr, flags, k, d.skipper, here, fuel);
    } else {
      UnorderedDone(g, d.expr, flags, d.skipper, here, fuel);
    }
    if k < |d.premises| {
      var from := Between(k, d.skipper, here);
      PremiseIsLower(d.premises, k);
      var round := d.premises[k];
      RoundIsMeant(g, d.expr, 0, flags, round, 0, from, fuel);
      var (i, r) := FirstUnmatched(g, d.expr, 0, flags, d.skipper, from, fuel);
      OutcomeGrows(g, here, from, r);
      if round.result.Reaches? {
        RoundUses(d.expr.parts, d.premises, k, flags, i);
        UnorderedIsMeant(g, d, k + 1, flags[i := true], s, fuel);
      } else {
        LastFails(d, k);
      }
    }
  }

  /** A round tries the unmatched parts from `i` on as the alternatives from `j` on. */
  lemma {:induction false} RoundIsMeant(g: Grammar, e: Expr, i: nat, flags: seq<bool>, round: Derivation, j: nat, s: View, fuel: nat)
    requires Ready(g, e, round.skipper, s) && e.Unordered? && |flags| == |e.parts| && i <= |e.parts|
    requires Holds(g, round) && round.mode.Parsing? && round.expr == Choice(Unmatched(e.parts, flags, 0))
    requires s.cursor == round.from && s.lastVisible == round.visible && Height(round) <= fuel
    requires j <= |round.premises| && (forall m: nat :: m < j ==> round.premises[m].result.Fails?)
    requires Unmatched(e.parts, flags, 0)[j..] == Unmatched(e.parts, flags, i)
    ensures var (at, r) := FirstUnmatched(g, e, i, flags, round.skipper, s, fuel);
            && r == Told(s, round.result)
            && (r.Ok? ==> i <= at < |e.parts| && j < |round.premises| && Uses(e.parts, flags, i, at, |round.premises| - 1 - j))
    decreases round, 1, |e.parts| - i
  {
    hide View.Append, Grown, WellFormed, Skipper.Valid, Highest, Meaning, FirstUnmatched, Holds, Unmatched, Uses;
    ChoiceHolds(g, round);
    if i == |e.parts| {
      RoundIsOver(g, e, flags, round, j, s, fuel);
    } else {
      NextUnmatched(e.parts, flags, round.expr.parts, i, j);
      UnmatchedUnfolds(g, e, i, flags, round.skipper, s, fuel);
    }
    if i < |e.parts| && flags[i] {
      RoundIsMeant(g, e, i + 1, flags, round, j, s, fuel);
      if round.result.Reaches? {
        var at := FirstUnmatched(g, e, i + 1, flags, round.skipper, s, fuel).0;
        UsesLater(e.parts, flags, i, at, |round.premises| - 1 - j);
      }
    } else if i < |e.parts| {
      PremiseIsLower(round.premises, j);
      DerivedIsMeant(g, round.premises[j], s, fuel);
      if round.premises[j].result.Fails? {
        RoundIsMeant(g, e, i + 1, flags, round, j + 1, s, fuel);
        if round.result.Reaches? {
          var at := FirstUnmatched(g, e, i + 1, flags, round.skipper, s, fuel).0;
          UsesLater(e.parts, flags, i, at, |round.premises| - 2 - j);
        }
      } else {
        UsesFirst(e.parts, flags, i);
      }
    }
  }

  // ---- Lookahead ----

  lemma {:induction false} ProbeIsMeant(g: Grammar, d: Derivation, s: View, fuel: nat)
    requires Holds(g, d) && d.mode.Probing? && At(g, d, s) && Height(d) <= fuel
    ensures Probe(g, d.expr, d.skipper, s, fuel) == Answer(d.result)
    decreases d, 2, 0
  {
    hide View.Append, Grown, Nullable, Skipper.Valid, FastProbeGroup, ProbeChoice, Meaning;
    hide FastProbe, Highest, Composed, ProbesItsStart, StartOf, FirstOf, Holds;
    HoldsInside(g, d);
    if |d.premises| == 1 {
      PremiseIsLower(d.premises, 0);
    }
    match d.expr
    case Marker(Create(_)) =>
    case And(inner) => ProbeIsMeant(g, d.premises[0], s, fuel);
    case Not(inner) => ProbeIsMeant(g, d.premises[0], s, fuel);
    case Group(_) => StartIsMeant(g, d, 0, s, fuel);
    case Choice(_) => ProbedChoiceIsMeant(g, d, 0, s, fuel);
    case Repeat(_, _, inner) => FastProbeIsMeant(g, d.premises[0], s, fuel);
    case Skipped(_, inner) =>
      ComposedProbesItsStart(inner);
      if Composed(inner) {
        ProbeIsMeant(g, d.premises[0], s, fuel);
      } else {
        DerivedIsMeant(g, d.premises[0], s, fuel);
      }
    case _ => DerivedIsMeant(g, d.premises[0], s, fuel);
  }

  lemma {:induction false} FastProbeIsMeant(g: Grammar, d: Derivation, s: View, fuel: nat)
    requires Holds(g, d) && d.mode.FastProbing? && At(g, d, s) && Height(d) <= fuel
    ensures FastProbe(g, d.expr, d.skipper, s, fuel) == Answer(d.result)
    decreases d, 2, 0
  {
    hide View.Append, Grown, Nullable, Skipper.Valid, FastProbeGroup, ProbeChoice, Meaning;
    hide Probe, Highest, Composed, ProbesItsStart, StartOf, FirstOf, Holds;
    HoldsInside(g, d);
    if |d.premises| == 1 {
      PremiseIsLower(d.premises, 0);
    }
    match d.expr
    case Group(_) => StartIsMeant(g, d, 0, s, fuel);
    case Choice(_) => ProbedChoiceIsMeant(g, d, 0, s, fuel);
    case Repeat(_, _, inner) => FastProbeIsMeant(g, d.premises[0], s, fuel);
    case Assign(_, inner) => FastProbeIsMeant(g, d.premises[0], s, fuel);
    case Call(rule) => FastProbeIsMeant(g, d.premises[0], s, fuel - 1);
    case Skipped(_, inner) =>
      ComposedProbesItsStart(inner);
      if Composed(inner) {
        FastProbeIsMeant(g, d.premises[0], s, fuel);
      } else {
        ProbeIsMeant(g, d.premises[0], s, fuel);
      }
    case _ => ProbeIsMeant(g, d.premises[0], s, fuel);
  }

  lemma {:induction false} StartIsMeant(g: Grammar, d: Derivation, k: nat, s: View, fuel: nat)
    requires Holds(g, d) && !d.mode.Parsing? && At(g, d, s) && Height(d) <= fuel && d.expr.Group?
    requires k < |d.premises| || k == 0
    ensures FastProbeGroup(g, d.expr, k, d.skipper, s, fuel) == Answer(d.result)
    decreases d, 1, |d.premises| - k
  {
    hide View.Append, Grown, Nullable, Skipper.Valid, Meaning, FastProbe, Highest, Holds;
    StartHolds(g, d);
    PremiseIsLower(d.premises, k);
    FastProbeIsMeant(g, d.premises[k], s, fuel);
    if k + 1 < |d.premises| {
      StartIsMeant(g, d, k + 1, s, fuel);
    }
  }

  lemma {:induction false} ProbedChoiceIsMeant(g: Grammar, d: Derivation, k: nat, s: View, fuel: nat)
    requires Holds(g, d) && !d.mode.Parsing? && At(g, d, s) && Height(d) <= fuel && d.expr.Choice?
    requires k <= |d.premises| && forall j: nat :: j < k ==> d.premises[j].result.Fails?
    ensures ProbeChoice(g, d.expr, k, d.mode.FastProbing?, d.skipper, s, fuel) == Answer(d.result)
    decreases d, 1, |d.premises| - k
  {
    hide View.Append, Grown, Nullable, Skipper.Valid, Meaning, FastProbe, Probe, Highest, Holds;
    ChoiceHolds(g, d);
    if k < |d.premises| {
      PremiseIsLower(d.premises, k);
      if d.mode.FastProbing? {
        FastProbeIsMeant(g, d.premises[k], s, fuel);
      } else {
        ProbeIsMeant(g, d.premises[k], s, fuel);
      }
      if d.premises[k].result.Fails? {
        ProbedChoiceIsMeant(g, d, k + 1, s, fuel);
      }
    }
  }
}
