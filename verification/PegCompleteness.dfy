/** A settled meaning has a derivation, so that meaning and derivability are one. */
module PegCompleteness {
  import opened Options
  import opened StrictContext
  import opened PegExpression
  import opened PegDepth
  import opened PegDerivation
  import opened PegParser
  import opened PegSoundness

  ghost predicate Derives(g: Grammar, d: Derivation, mode: Mode, e: Expr, sk: Skipper, s: View) {
    Holds(g, d) && About(d, mode, e, sk, s.cursor, s.lastVisible)
  }

  /** Items parsed one behind the other so far, none of which has failed. */
  ghost predicate Building(g: Grammar, d: Derivation, e: Expr, sk: Skipper, s: View) {
    && s.Valid() && About(d, Parsing, e, sk, s.cursor, s.lastVisible) && InTurn(d) && SoFar(d, |d.premises|).Reaches?
    && forall k: nat :: k < |d.premises| ==> Holds(g, d.premises[k])
  }

  ghost function With(d: Derivation, item: Derivation): Derivation {
    d.(premises := d.premises + [item])
  }

  lemma {:induction false} EarlierItemsStay(sk: Skipper, from: nat, visible: nat, items: seq<Derivation>, item: Derivation, n: nat)
    requires n <= |items|
    ensures Joined(sk, from, visible, items + [item], n) == Joined(sk, from, visible, items, n)
  {
    if n > 0 {
      EarlierItemsStay(sk, from, visible, items, item, n - 1);
      assert (items + [item])[n - 1] == items[n - 1];
    }
  }

  lemma ItemComesNext(d: Derivation, s: View, item: Derivation, from: View)
    requires s.Valid() && SoFar(d, |d.premises|).Reaches? && from == Between(|d.premises|, d.skipper, After(s, SoFar(d, |d.premises|)))
    requires About(item, Parsing, item.expr, d.skipper, from.cursor, from.lastVisible)
    ensures Next(d.skipper, SoFar(d, |d.premises|), |d.premises|, item)
  {
    hide Joined;
  }

  lemma WithIsInTurn(d: Derivation, item: Derivation)
    requires InTurn(d) && Next(d.skipper, SoFar(d, |d.premises|), |d.premises|, item)
    ensures InTurn(With(d, item)) && SoFar(With(d, item), |d.premises|) == SoFar(d, |d.premises|)
  {
    hide Joined, Next;
    var n, more := |d.premises|, With(d, item);
    forall k: nat | k < |more.premises| ensures Next(d.skipper, SoFar(more, k), k, more.premises[k]) {
      EarlierItemsStay(d.skipper, d.from, d.visible, d.premises, item, k);
    }
    EarlierItemsStay(d.skipper, d.from, d.visible, d.premises, item, n);
  }

  /** Whether the items follow one another does not depend on what is concluded from them. */
  lemma ConclusionIsFree(d: Derivation, r: Result)
    requires InTurn(d)
    ensures InTurn(d.(result := r))
  {
    hide Joined, Next;
  }

  lemma ItemIsAdded(g: Grammar, d: Derivation, e: Expr, sk: Skipper, s: View, item: Derivation, from: View)
    requires Building(g, d, e, sk, s) && from == Between(|d.premises|, sk, After(s, SoFar(d, |d.premises|)))
    requires Derives(g, item, Parsing, item.expr, sk, from)
    ensures InTurn(With(d, item)) && forall k: nat :: k <= |d.premises| ==> Holds(g, With(d, item).premises[k])
    ensures SoFar(With(d, item), |d.premises|) == SoFar(d, |d.premises|)
    ensures item.result.Fails? ==> SoFar(With(d, item), |d.premises| + 1).Fails?
    ensures item.result.Reaches? ==>
      && Building(g, With(d, item), e, sk, s)
      && from.Valid() && After(s, SoFar(With(d, item), |d.premises| + 1)) == After(from, item.result)
  {
    hide Holds, Joined, View.Append, InTurn;
    ItemComesNext(d, s, item, from);
    WithIsInTurn(d, item);
    ItemStarts(With(d, item), |d.premises|, s);
  }

  lemma NothingBuilt(g: Grammar, e: Expr, sk: Skipper, s: View) returns (d: Derivation)
    requires s.Valid()
    ensures d.premises == [] && Building(g, d, e, sk, s) && After(s, SoFar(d, 0)) == s
  {
    d := Derivation(Parsing, e, sk, s.cursor, s.lastVisible, Fails, []);
    NothingYet(d, s);
  }

  lemma {:induction false} EarlierRoundsStay(parts: seq<Expr>, rounds: seq<Derivation>, round: Derivation, n: nat)
    requires n <= |rounds|
    ensures Remaining(parts, rounds + [round], n) == Remaining(parts, rounds, n)
  {
    if n > 0 {
      EarlierRoundsStay(parts, rounds, round, n - 1);
      assert (rounds + [round])[n - 1] == rounds[n - 1];
    }
  }

  lemma RoundIsAdded(d: Derivation, round: Derivation, parts: seq<Expr>)
    requires RoundsOf(d, parts) && round.expr == Choice(Remaining(parts, d.premises, |d.premises|))
    ensures RoundsOf(With(d, round), parts)
    ensures Remaining(parts, With(d, round).premises, |d.premises|) == Remaining(parts, d.premises, |d.premises|)
  {
    hide Remaining;
    forall k: nat | k <= |d.premises| ensures With(d, round).premises[k].expr == Choice(Remaining(parts, With(d, round).premises, k)) {
      EarlierRoundsStay(parts, d.premises, round, k);
    }
    EarlierRoundsStay(parts, d.premises, round, |d.premises|);
  }

  lemma UnorderedConcludes(g: Grammar, d: Derivation, e: Expr, r: Result)
    requires d.mode.Parsing? && d.expr == e && e.Unordered? && InTurn(d) && |d.premises| <= |e.parts| && RoundsOf(d, e.parts)
    requires r == SoFar(d, |d.premises|) && (r.Reaches? ==> |d.premises| == |e.parts|)
    requires forall k: nat :: k < |d.premises| ==> Holds(g, d.premises[k])
    ensures Holds(g, d.(result := r))
  {
    hide Holds, Joined, InTurn, Remaining;
    ConclusionIsFree(d, r);
    Concluded(g, d.(result := r));
  }

  lemma FirstMatch(g: Grammar, tried: seq<Derivation>, parts: seq<Expr>, p: Derivation, sk: Skipper, s: View) returns (d: Derivation)
    requires |tried| < |parts| && Derives(g, p, Parsing, parts[|tried|], sk, s) && p.result.Reaches?
    requires forall k: nat :: k < |tried| ==> Derives(g, tried[k], Parsing, parts[k], sk, s) && tried[k].result.Fails?
    ensures Derives(g, d, Parsing, Choice(parts), sk, s) && d.result == p.result && |d.premises| == |tried| + 1
  {
    hide Holds;
    d := Derivation(Parsing, Choice(parts), sk, s.cursor, s.lastVisible, p.result, tried + [p]);
    Concluded(g, d);
  }

  lemma RoundInVain(g: Grammar, tried: seq<Derivation>, e: Expr, flags: seq<bool>, sk: Skipper, s: View, fuel: nat)
    returns (d: Derivation)
    requires Ready(g, e, sk, s) && e.Unordered? && |flags| == |e.parts|
    requires |tried| <= |Unmatched(e.parts, flags, 0)|
    requires Unmatched(e.parts, flags, 0)[|tried|..] == Unmatched(e.parts, flags, |e.parts|)
    requires forall k: nat :: k < |tried| ==>
      Derives(g, tried[k], Parsing, Unmatched(e.parts, flags, 0)[k], sk, s) && tried[k].result.Fails?
    ensures Derives(g, d, Parsing, Choice(Unmatched(e.parts, flags, 0)), sk, s) && d.result.Fails?
    ensures FirstUnmatched(g, e, |e.parts|, flags, sk, s, fuel) == (|e.parts|, No)
  {
    hide Holds, Meaning;
    d := Derivation(Parsing, Choice(Unmatched(e.parts, flags, 0)), sk, s.cursor, s.lastVisible, Fails, tried);
    assert |Unmatched(e.parts, flags, 0)| == |tried|;
    Concluded(g, d);
  }

  lemma {:induction false} MeantIsDerived(g: Grammar, e: Expr, sk: Skipper, s: View, fuel: nat) returns (d: Derivation)
    requires Ready(g, e, sk, s) && !Meaning(g, e, sk, s, fuel).Out?
    ensures Derives(g, d, Parsing, e, sk, s) && Told(s, d.result) == Meaning(g, e, sk, s, fuel)
    decreases fuel, e, 3, 0
  {
    hide View.Append, Closed, FirstRelabelled, Grown, Nullable, Skipper.Valid;
    hide GroupFrom, ChoiceFrom, UnorderedFrom, RepeatFrom, Probe, Holds;
    hide InTurn, InNode, Renamed, Joined, FirstOf, Remaining;
    d := Derivation(Parsing, e, sk, s.cursor, s.lastVisible, Fails, []);
    match e {
      case Terminal(id, m, _) =>
        if m(s.cursor).Some? {
          d := d.(result := Reaches(m(s.cursor).value, m(s.cursor).value, [Leaf(Other(id), s.cursor, m(s.cursor).value, false)]));
        }
        Concluded(g, d);
      case Marker(element) =>
        d := d.(result := Reaches(s.cursor, s.cursor, [Leaf(element, s.cursor, s.cursor, false)]));
        Concluded(g, d);
      case And(inner) =>
        AppendNothing(s);
        var p := ProbeIsDerived(g, inner, sk, s, fuel);
        d := d.(premises := [p], result := Judged(d, p.result.Reaches?));
        Concluded(g, d);
      case Not(inner) =>
        AppendNothing(s);
        var p := ProbeIsDerived(g, inner, sk, s, fuel);
        d := d.(premises := [p], result := Judged(d, p.result.Fails?));
        Concluded(g, d);
      case Assign(_, _) =>
        d := AssignIsDerived(g, e, sk, s, fuel);
      case Group(_) =>
        var start := NothingBuilt(g, e, sk, s);
        d := GroupIsDerived(g, start, e, sk, s, s, fuel);
      case Choice(_) =>
        d := ChoiceIsDerived(g, [], e, sk, s, fuel);
      case Unordered(parts) =>
        var start := NothingBuilt(g, e, sk, s);
        NoneUsed(start);
        d := UnorderedIsDerived(g, start, NoFlags(|parts|), e, sk, s, s, fuel);
      case Repeat(_, _, _) =>
        var start := NothingBuilt(g, e, sk, s);
        d := RepeatIsDerived(g, start, e, sk, s, s, fuel);
      case Skipped(local, inner) =>
        var p := MeantIsDerived(g, inner, local, s, fuel);
        d := d.(premises := [p], result := p.result);
        Concluded(g, d);
      case Call(_) =>
        d := CallIsDerived(g, e, sk, s, fuel);
    }
  }

  lemma {:induction false} AssignIsDerived(g: Grammar, e: Expr, sk: Skipper, s: View, fuel: nat) returns (d: Derivation)
    requires Ready(g, e, sk, s) && e.Assign? && !Meaning(g, e, sk, s, fuel).Out?
    ensures Derives(g, d, Parsing, e, sk, s) && Told(s, d.result) == Meaning(g, e, sk, s, fuel)
    decreases fuel, e, 2, 0
  {
    hide View.Append, Closed, FirstRelabelled, Grown, Nullable, Skipper.Valid, InNode, Renamed, Holds;
    var inner, element := e.inner, Assignment(e.id);
    var p := MeantIsDerived(g, inner, sk, if inner.Choice? then s.Opened() else s, fuel);
    if inner.Choice? {
      InNodeIsMeant(s, p.result, element);
    } else {
      RenamedIsMeant(s, p.result, element);
    }
    var r := if inner.Choice? then InNode(s.cursor, p.result, element) else Renamed(p.result, element);
    d := Derivation(Parsing, e, sk, s.cursor, s.lastVisible, r, [p]);
    Concluded(g, d);
  }

  lemma {:induction false} CallIsDerived(g: Grammar, e: Expr, sk: Skipper, s: View, fuel: nat) returns (d: Derivation)
    requires Ready(g, e, sk, s) && e.Call? && !Meaning(g, e, sk, s, fuel).Out?
    ensures Derives(g, d, Parsing, e, sk, s) && Told(s, d.result) == Meaning(g, e, sk, s, fuel)
    decreases fuel, e, 2, 0
  {
    hide View.Append, Closed, Grown, Nullable, Skipper.Valid, InNode, Holds;
    var p := MeantIsDerived(g, g.rules[e.rule].body, RuleSkipper(g, e.rule, sk), s.Opened(), fuel - 1);
    InNodeIsMeant(s, p.result, Other(e.rule));
    d := Derivation(Parsing, e, sk, s.cursor, s.lastVisible, InNode(s.cursor, p.result, Other(e.rule)), [p]);
    Concluded(g, d);
  }

  lemma {:induction false} GroupIsDerived(g: Grammar, sofar: Derivation, e: Expr, sk: Skipper, s: View, t: View, fuel: nat)
    returns (d: Derivation)
    requires Ready(g, e, sk, t) && e.Group? && Building(g, sofar, e, sk, s) && |sofar.premises| <= |e.parts|
    requires t == After(s, SoFar(sofar, |sofar.premises|)) && !GroupFrom(g, e, |sofar.premises|, sk, t, fuel).Out?
    requires forall k: nat :: k < |sofar.premises| ==> sofar.premises[k].expr == e.parts[k]
    ensures Derives(g, d, Parsing, e, sk, s) && Told(s, d.result) == GroupFrom(g, e, |sofar.premises|, sk, t, fuel)
    decreases fuel, e, 2, |e.parts| - |sofar.premises|
  {
    hide View.Append, Grown, Nullable, Skipper.Valid, Meaning, Joined, Between, InTurn, Holds;
    var i := |sofar.premises|;
    if i == |e.parts| {
      ConclusionIsFree(sofar, SoFar(sofar, i));
      d := sofar.(result := SoFar(sofar, i));
      Concluded(g, d);
    } else {
      var from := Between(i, sk, t);
      BetweenGrows(g, i, sk, t);
      var item := MeantIsDerived(g, e.parts[i], sk, from, fuel);
      ItemIsAdded(g, sofar, e, sk, s, item, from);
      OutcomeGrows(g, t, from, Meaning(g, e.parts[i], sk, from, fuel));
      if item.result.Reaches? {
        d := GroupIsDerived(g, With(sofar, item), e, sk, s, After(from, item.result), fuel);
      } else {
        ConclusionIsFree(With(sofar, item), Fails);
        d := With(sofar, item).(result := Fails);
        Concluded(g, d);
      }
    }
  }

  lemma {:induction false} RepeatIsDerived(g: Grammar, sofar: Derivation, e: Expr, sk: Skipper, s: View, t: View, fuel: nat)
    returns (d: Derivation)
    requires Ready(g, e, sk, t) && e.Repeat? && Building(g, sofar, e, sk, s) && (e.max.Some? ==> |sofar.premises| <= e.max.value)
    requires t == After(s, SoFar(sofar, |sofar.premises|)) && !RepeatFrom(g, e, |sofar.premises|, sk, t, fuel).Out?
    requires forall k: nat :: k < |sofar.premises| ==> sofar.premises[k].expr == e.inner
    ensures Derives(g, d, Parsing, e, sk, s) && Told(s, d.result) == RepeatFrom(g, e, |sofar.premises|, sk, t, fuel)
    decreases fuel, e, 2, g.size - t.cursor
  {
    hide View.Append, Grown, Nullable, Skipper.Valid, Meaning, Joined, Between, InTurn, Holds;
    var n := |sofar.premises|;
    if e.max == Some(n) {
      ConclusionIsFree(sofar, SoFar(sofar, n));
      d := sofar.(result := SoFar(sofar, n));
      Concluded(g, d);
    } else {
      var from := Between(n, sk, t);
      BetweenGrows(g, n, sk, t);
      var item := MeantIsDerived(g, e.inner, sk, from, fuel);
      ItemIsAdded(g, sofar, e, sk, s, item, from);
      OutcomeGrows(g, t, from, Meaning(g, e.inner, sk, from, fuel));
      if item.result.Reaches? {
        d := RepeatIsDerived(g, With(sofar, item), e, sk, s, After(from, item.result), fuel);
      } else {
        var r := if n < e.min then Fails else SoFar(sofar, n);
        ConclusionIsFree(With(sofar, item), r);
        d := With(sofar, item).(result := r);
        Concluded(g, d);
      }
    }
  }

  lemma {:induction false} ChoiceIsDerived(g: Grammar, tried: seq<Derivation>, e: Expr, sk: Skipper, s: View, fuel: nat)
    returns (d: Derivation)
    requires Ready(g, e, sk, s) && e.Choice? && |tried| <= |e.parts| && !ChoiceFrom(g, e, |tried|, sk, s, fuel).Out?
    requires forall k: nat :: k < |tried| ==> Derives(g, tried[k], Parsing, e.parts[k], sk, s) && tried[k].result.Fails?
    ensures Derives(g, d, Parsing, e, sk, s) && Told(s, d.result) == ChoiceFrom(g, e, |tried|, sk, s, fuel)
    decreases fuel, e, 2, |e.parts| - |tried|
  {
    hide View.Append, Grown, Nullable, Skipper.Valid, Meaning, Holds;
    if |tried| == |e.parts| {
      d := Derivation(Parsing, e, sk, s.cursor, s.lastVisible, Fails, tried);
      Concluded(g, d);
    } else {
      var p := MeantIsDerived(g, e.parts[|tried|], sk, s, fuel);
      if p.result.Fails? {
        d := ChoiceIsDerived(g, tried + [p], e, sk, s, fuel);
      } else {
        d := Derivation(Parsing, e, sk, s.cursor, s.lastVisible, p.result, tried + [p]);
        Concluded(g, d);
      }
    }
  }

  lemma {:induction false} UnorderedIsDerived(g: Grammar, sofar: Derivation, flags: seq<bool>, e: Expr, sk: Skipper, s: View, t: View,
                                              fuel: nat)
    returns (d: Derivation)
    requires Ready(g, e, sk, t) && e.Unordered? && Building(g, sofar, e, sk, s) && |sofar.premises| <= |e.parts| == |flags|
    requires t == After(s, SoFar(sofar, |sofar.premises|)) && !UnorderedFrom(g, e, flags, |sofar.premises|, sk, t, fuel).Out?
    requires Remaining(e.parts, sofar.premises, |sofar.premises|) == Unmatched(e.parts, flags, 0) && RoundsOf(sofar, e.parts)
    ensures Derives(g, d, Parsing, e, sk, s) && Told(s, d.result) == UnorderedFrom(g, e, flags, |sofar.premises|, sk, t, fuel)
    decreases fuel, e, 2, |e.parts| - |sofar.premises|
  {
    hide View.Append, Grown, WellFormed, Skipper.Valid, Meaning, Joined;
    hide Between, InTurn, FirstUnmatched, UnorderedFrom, Unmatched, Uses;
    hide Remaining, RoundsOf, Holds;
    var n := |sofar.premises|;
    if n == |e.parts| {
      UnorderedDone(g, e, flags, sk, t, fuel);
      UnorderedConcludes(g, sofar, e, SoFar(sofar, n));
      d := sofar.(result := SoFar(sofar, n));
    } else {
      var from := Between(n, sk, t);
      BetweenGrows(g, n, sk, t);
      UnorderedUnfolds(g, e, flags, n, sk, t, fuel);
      var (i, r) := FirstUnmatched(g, e, 0, flags, sk, from, fuel);
      var round := RoundIsDerived(g, [], e, 0, flags, sk, from, fuel);
      ItemIsAdded(g, sofar, e, sk, s, round, from);
      RoundIsAdded(sofar, round, e.parts);
      OutcomeGrows(g, t, from, r);
      if round.result.Reaches? {
        RoundUses(e.parts, With(sofar, round).premises, n, flags, i);
        d := UnorderedIsDerived(g, With(sofar, round), flags[i := true], e, sk, s, After(from, round.result), fuel);
      } else {
        UnorderedConcludes(g, With(sofar, round), e, Fails);
        d := With(sofar, round).(result := Fails);
      }
    }
  }

  /** A round that has tried the first unmatched parts, those before `i`, in vain. */
  lemma {:induction false} RoundIsDerived(g: Grammar, tried: seq<Derivation>, e: Expr, i: nat, flags: seq<bool>, sk: Skipper, s: View,
                                          fuel: nat)
    returns (round: Derivation)
    requires Ready(g, e, sk, s) && e.Unordered? && i <= |e.parts| == |flags| && !FirstUnmatched(g, e, i, flags, sk, s, fuel).1.Out?
    requires |tried| <= |Unmatched(e.parts, flags, 0)| && Unmatched(e.parts, flags, 0)[|tried|..] == Unmatched(e.parts, flags, i)
    requires forall k: nat :: k < |tried| ==>
      Derives(g, tried[k], Parsing, Unmatched(e.parts, flags, 0)[k], sk, s) && tried[k].result.Fails?
    ensures Derives(g, round, Parsing, Choice(Unmatched(e.parts, flags, 0)), sk, s)
    ensures var (at, r) := FirstUnmatched(g, e, i, flags, sk, s, fuel);
            && r == Told(s, round.result)
            && (r.Ok? ==>
                  && i <= at < |e.parts| && |tried| < |round.premises|
                  && Uses(e.parts, flags, i, at, |round.premises| - 1 - |tried|))
    decreases fuel, e, 1, |e.parts| - i
  {
    hide View.Append, Grown, WellFormed, Skipper.Valid, Meaning, FirstUnmatched, Unmatched, Uses, Holds;
    var parts := Unmatched(e.parts, flags, 0);
    if i == |e.parts| {
      round := RoundInVain(g, tried, e, flags, sk, s, fuel);
    } else {
      NextUnmatched(e.parts, flags, parts, i, |tried|);
      UnmatchedUnfolds(g, e, i, flags, sk, s, fuel);
      if flags[i] {
        round := RoundIsDerived(g, tried, e, i + 1, flags, sk, s, fuel);
        if round.result.Reaches? {
          var at := FirstUnmatched(g, e, i + 1, flags, sk, s, fuel).0;
          UsesLater(e.parts, flags, i, at, |round.premises| - 1 - |tried|);
        }
      } else {
        var p := MeantIsDerived(g, e.parts[i], sk, s, fuel);
        if p.result.Fails? {
          round := RoundIsDerived(g, tried + [p], e, i + 1, flags, sk, s, fuel);
          if round.result.Reaches? {
            var at := FirstUnmatched(g, e, i + 1, flags, sk, s, fuel).0;
            UsesLater(e.parts, flags, i, at, |round.premises| - 2 - |tried|);
          }
        } else {
          UsesFirst(e.parts, flags, i);
          round := FirstMatch(g, tried, parts, p, sk, s);
        }
      }
    }
  }

  // ---- Lookahead ----

  lemma {:induction false} ProbeIsDerived(g: Grammar, e: Expr, sk: Skipper, s: View, fuel: nat) returns (d: Derivation)
    requires Ready(g, e, sk, s) && !Probe(g, e, sk, s, fuel).Unknown?
    ensures Derives(g, d, Probing, e, sk, s) && Answer(d.result) == Probe(g, e, sk, s, fuel)
    decreases fuel, e, 5, 0
  {
    hide View.Append, Grown, Nullable, Skipper.Valid, FastProbeGroup, ProbeChoice, Meaning;
    hide FastProbe, Composed, ProbesItsStart, StartOf, FirstOf, Holds;
    d := Derivation(Probing, e, sk, s.cursor, s.lastVisible, Fails, []);
    var p: Derivation;
    match e {
      case Marker(Create(_)) =>
        Concluded(g, d);
        return;
      case And(inner) =>
        p := ProbeIsDerived(g, inner, sk, s, fuel);
      case Not(inner) =>
        p := ProbeIsDerived(g, inner, sk, s, fuel);
        d := d.(premises := [p], result := Judged(d, p.result.Fails?));
        Concluded(g, d);
        return;
      case Group(_) =>
        d := StartIsDerived(g, [], Probing, e, sk, s, fuel);
        return;
      case Choice(_) =>
        d := ProbedChoiceIsDerived(g, [], Probing, e, sk, s, fuel);
        return;
      case Repeat(_, _, inner) =>
        p := FastProbeIsDerived(g, inner, sk, s, fuel);
      case Skipped(_, inner) =>
        ComposedProbesItsStart(inner);
        if Composed(inner) {
          p := ProbeIsDerived(g, inner, sk, s, fuel);
        } else {
          p := MeantIsDerived(g, e, sk, s, fuel);
        }
      case _ =>
        p := MeantIsDerived(g, e, sk, s, fuel);
    }
    d := d.(premises := [p], result := Judged(d, p.result.Reaches?));
    Concluded(g, d);
  }

  lemma {:induction false} FastProbeIsDerived(g: Grammar, e: Expr, sk: Skipper, s: View, fuel: nat) returns (d: Derivation)
    requires Ready(g, e, sk, s) && !FastProbe(g, e, sk, s, fuel).Unknown?
    ensures Derives(g, d, FastProbing, e, sk, s) && Answer(d.result) == FastProbe(g, e, sk, s, fuel)
    decreases fuel, e, 6, 0
  {
    hide View.Append, Grown, Nullable, Skipper.Valid, FastProbeGroup, ProbeChoice, Meaning;
    hide Probe, Composed, ProbesItsStart, StartOf, FirstOf, Holds;
    d := Derivation(FastProbing, e, sk, s.cursor, s.lastVisible, Fails, []);
    var p: Derivation;
    match e {
      case Group(_) =>
        d := StartIsDerived(g, [], FastProbing, e, sk, s, fuel);
        return;
      case Choice(_) =>
        d := ProbedChoiceIsDerived(g, [], FastProbing, e, sk, s, fuel);
        return;
      case Repeat(_, _, inner) =>
        p := FastProbeIsDerived(g, inner, sk, s, fuel);
      case Assign(_, inner) =>
        p := FastProbeIsDerived(g, inner, sk, s, fuel);
      case Call(rule) =>
        p := FastProbeIsDerived(g, g.rules[rule].body, RuleSkipper(g, rule, sk), s, fuel - 1);
      case Skipped(_, inner) =>
        ComposedProbesItsStart(inner);
        if Composed(inner) {
          p := FastProbeIsDerived(g, inner, sk, s, fuel);
        } else {
          p := ProbeIsDerived(g, e, sk, s, fuel);
        }
      case _ =>
        p := ProbeIsDerived(g, e, sk, s, fuel);
    }
    d := d.(premises := [p], result := Judged(d, p.result.Reaches?));
    Concluded(g, d);
  }

  lemma {:induction false} StartIsDerived(g: Grammar, tried: seq<Derivation>, mode: Mode, e: Expr, sk: Skipper, s: View, fuel: nat)
    returns (d: Derivation)
    requires Ready(g, e, sk, s) && e.Group? && |tried| < |e.parts| && !mode.Parsing? && !FastProbeGroup(g, e, |tried|, sk, s, fuel).Unknown?
    requires forall k: nat :: k < |tried| ==>
      Derives(g, tried[k], FastProbing, e.parts[k], sk, s) && tried[k].result.Fails? && Nullable(g, e.parts[k])
    ensures Derives(g, d, mode, e, sk, s) && Answer(d.result) == FastProbeGroup(g, e, |tried|, sk, s, fuel)
    decreases fuel, e, 2, |e.parts| - |tried|
  {
    hide View.Append, Grown, Skipper.Valid, Meaning, FastProbe, Holds;
    var i := |tried|;
    var p := FastProbeIsDerived(g, e.parts[i], sk, s, fuel);
    if p.result.Fails? && Nullable(g, e.parts[i]) && i + 1 < |e.parts| {
      d := StartIsDerived(g, tried + [p], mode, e, sk, s, fuel);
    } else {
      d := Derivation(mode, e, sk, s.cursor, s.lastVisible, Fails, tried + [p]);
      d := d.(result := Judged(d, p.result.Reaches?));
      Concluded(g, d);
    }
  }

  lemma {:induction false} ProbedChoiceIsDerived(g: Grammar, tried: seq<Derivation>, mode: Mode, e: Expr, sk: Skipper, s: View, fuel: nat)
    returns (d: Derivation)
    requires Ready(g, e, sk, s) && e.Choice? && |tried| <= |e.parts| && !mode.Parsing?
    requires !ProbeChoice(g, e, |tried|, mode.FastProbing?, sk, s, fuel).Unknown?
    requires forall k: nat :: k < |tried| ==> Derives(g, tried[k], mode, e.parts[k], sk, s) && tried[k].result.Fails?
    ensures Derives(g, d, mode, e, sk, s) && Answer(d.result) == ProbeChoice(g, e, |tried|, mode.FastProbing?, sk, s, fuel)
    decreases fuel, e, 2, |e.parts| - |tried|
  {
    hide View.Append, Grown, Nullable, Skipper.Valid, Meaning, FastProbe, Probe, Holds;
    if |tried| == |e.parts| {
      d := Derivation(mode, e, sk, s.cursor, s.lastVisible, Fails, tried);
      Concluded(g, d);
    } else {
      var p: Derivation;
      if mode.FastProbing? {
        p := FastProbeIsDerived(g, e.parts[|tried|], sk, s, fuel);
      } else {
        p := ProbeIsDerived(g, e.parts[|tried|], sk, s, fuel);
      }
      if p.result.Fails? {
        d := ProbedChoiceIsDerived(g, tried + [p], mode, e, sk, s, fuel);
      } else {
        d := Derivation(mode, e, sk, s.cursor, s.lastVisible, p.result, tried + [p]);
        Concluded(g, d);
      }
    }
  }

  // ---- Meaning is derivability ----

  /** An outcome is reached at some call depth exactly when a derivation ends in it. */
  lemma MeantIffDerived(g: Grammar, e: Expr, sk: Skipper, s: View, o: Outcome)
    requires Ready(g, e, sk, s) && !o.Out?
    ensures (exists fuel: nat :: Meaning(g, e, sk, s, fuel) == o)
       <==> (exists d: Derivation :: Derives(g, d, Parsing, e, sk, s) && Told(s, d.result) == o)
  {
    hide Meaning, Holds, Told, WellFormed, Grammar.Valid, Skipper.Valid;
    if fuel: nat :| Meaning(g, e, sk, s, fuel) == o {
      var d := MeantIsDerived(g, e, sk, s, fuel);
      assert Derives(g, d, Parsing, e, sk, s) && Told(s, d.result) == o;
    }
    if d: Derivation :| Derives(g, d, Parsing, e, sk, s) && Told(s, d.result) == o {
      DerivedIsMeant(g, d, s, Height(d));
      assert Meaning(g, e, sk, s, Height(d)) == o;
    }
  }

  /** The same for a probe. */
  lemma ProbedIffDerived(g: Grammar, e: Expr, sk: Skipper, s: View, v: Verdict)
    requires Ready(g, e, sk, s) && !v.Unknown?
    ensures (exists fuel: nat :: Probe(g, e, sk, s, fuel) == v)
       <==> (exists d: Derivation :: Derives(g, d, Probing, e, sk, s) && Answer(d.result) == v)
  {
    hide Probe, Holds, WellFormed, Grammar.Valid, Skipper.Valid;
    if fuel: nat :| Probe(g, e, sk, s, fuel) == v {
      var d := ProbeIsDerived(g, e, sk, s, fuel);
      assert Derives(g, d, Probing, e, sk, s) && Answer(d.result) == v;
    }
    if d: Derivation :| Derives(g, d, Probing, e, sk, s) && Answer(d.result) == v {
      ProbeIsMeant(g, d, s, Height(d));
      assert Probe(g, e, sk, s, Height(d)) == v;
    }
  }

  lemma ToldOnce(s: View, a: Result, b: Result)
    requires s.Valid() && Told(s, a) == Told(s, b)
    ensures a == b
  {
    if a.Reaches? {
      assert (s.Top() + a.nodes)[|s.Top()|..] == a.nodes;
      assert (s.Top() + b.nodes)[|s.Top()|..] == b.nodes;
      assert After(s, a).Top() == s.Top() + a.nodes && After(s, b).Top() == s.Top() + b.nodes;
    }
  }

  /** There is at most one result to derive: the grammar is not ambiguous. */
  lemma DerivationsAgree(g: Grammar, a: Derivation, b: Derivation, e: Expr, sk: Skipper, s: View)
    requires Ready(g, e, sk, s) && Derives(g, a, Parsing, e, sk, s) && Derives(g, b, Parsing, e, sk, s)
    ensures a.result == b.result
  {
    hide Meaning, Holds, Told, WellFormed, Grammar.Valid, Skipper.Valid;
    var fuel := if Height(a) < Height(b) then Height(b) else Height(a);
    DerivedIsMeant(g, a, s, fuel);
    DerivedIsMeant(g, b, s, fuel);
    ToldOnce(s, a.result, b.result);
  }

  lemma {:induction false} FirstMatchWinsFrom(g: Grammar, e: Expr, i: nat, k: nat, sk: Skipper, s: View, fuel: nat)
    requires Ready(g, e, sk, s) && e.Choice? && i <= k < |e.parts| && !Meaning(g, e.parts[k], sk, s, fuel).No?
    requires forall j: nat :: j < k ==> Meaning(g, e.parts[j], sk, s, fuel).No?
    ensures ChoiceFrom(g, e, i, sk, s, fuel) == Meaning(g, e.parts[k], sk, s, fuel)
    decreases k - i
  {
    hide Meaning, Skipper.Valid, Grammar.Valid;
    if i < k {
      FirstMatchWinsFrom(g, e, i + 1, k, sk, s, fuel);
    }
  }

  /** A choice means what its first alternative means that does not fail. */
  lemma FirstMatchWins(g: Grammar, e: Expr, k: nat, sk: Skipper, s: View, fuel: nat)
    requires Ready(g, e, sk, s) && e.Choice? && k < |e.parts| && !Meaning(g, e.parts[k], sk, s, fuel).No?
    requires forall j: nat :: j < k ==> Meaning(g, e.parts[j], sk, s, fuel).No?
    ensures Meaning(g, e, sk, s, fuel) == Meaning(g, e.parts[k], sk, s, fuel)
  {
    hide ChoiceFrom, Skipper.Valid, Grammar.Valid;
    FirstMatchWinsFrom(g, e, 0, k, sk, s, fuel);
  }

  /** What a parse answers, by itself or as an attempt, is what can be derived, with the tree the derivation builds. */
  lemma AnswerIsDerived(g: Grammar, e: Expr, sk: Skipper, start: View, now: View, v: Verdict, fuel: nat, clean: bool)
    requires Ready(g, e, sk, start) && !v.Unknown? && Agrees(g, start, now, v, Meaning(g, e, sk, start, fuel), clean)
    ensures v.Yes? <==> exists d: Derivation :: Derives(g, d, Parsing, e, sk, start) && Told(start, d.result) == Ok(now)
    ensures v.Nope? <==> exists d: Derivation :: Derives(g, d, Parsing, e, sk, start) && d.result.Fails?
  {
    hide Meaning, Holds, WellFormed, Grammar.Valid, Skipper.Valid, Extends, View.Append;
    var d := MeantIsDerived(g, e, sk, start, fuel);
    forall other: Derivation | Derives(g, other, Parsing, e, sk, start) ensures other.result == d.result {
      DerivationsAgree(g, d, other, e, sk, start);
    }
  }
}
