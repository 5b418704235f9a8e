/** Pruning: dominated candidates go, the rest is sorted by rank cost. */
module FuzzyFrontier {
  import opened FuzzyScript
  import opened FuzzyText
  import opened FuzzyCandidates

  /** No worse in rank, weight, distance, substitutions and length, and better in one of them. */
  predicate Dominates(a: Candidate, b: Candidate) {
    && a.cost.primaryRankCost <= b.cost.primaryRankCost
    && a.rawWeightedCost <= b.rawWeightedCost
    && a.distance <= b.distance
    && a.substitutionCount <= b.substitutionCount
    && a.consumed >= b.consumed
    && (a.cost.primaryRankCost < b.cost.primaryRankCost
        || a.rawWeightedCost < b.rawWeightedCost
        || a.distance < b.distance
        || a.substitutionCount < b.substitutionCount
        || a.consumed > b.consumed)
  }

  lemma DominanceIsStrictOrder(a: Candidate, b: Candidate, c: Candidate)
    ensures !Dominates(a, a)
    ensures Dominates(a, b) ==> !Dominates(b, a)
    ensures Dominates(a, b) && Dominates(b, c) ==> Dominates(a, c)
  {}

  /** What candidates are compared by, smaller being better. */
  datatype Score = Score(rank: nat, weight: nat, distance: nat, substitutions: nat, short: int) {
    predicate AtMost(other: Score) {
      rank <= other.rank && weight <= other.weight && distance <= other.distance && substitutions <= other.substitutions && short <= other.short
    }
  }

  function ScoreOf(c: Candidate): Score {
    Score(c.cost.primaryRankCost, c.rawWeightedCost, c.distance, c.substitutionCount, -(c.consumed as int))
  }

  /** Dominance is the strict part of the product order: better means no worse in all respects and not the same. */
  lemma DominanceIsPareto(a: Candidate, b: Candidate)
    ensures Dominates(a, b) <==> ScoreOf(a).AtMost(ScoreOf(b)) && ScoreOf(a) != ScoreOf(b)
  {}

  ghost predicate Undominated(cs: seq<Candidate>, c: Candidate) {
    forall d :: d in cs ==> !Dominates(d, c)
  }

  predicate SortedByRank(cs: seq<Candidate>) {
    forall i: nat, j: nat :: i < j < |cs| ==> cs[i].cost.primaryRankCost <= cs[j].cost.primaryRankCost
  }

  /** The Pareto frontier of `cs`, each member once, in rank order. */
  ghost predicate IsFrontier(cs: seq<Candidate>, frontier: seq<Candidate>) {
    && SortedByRank(frontier)
    && (Distinct(cs) ==> Distinct(frontier))
    && forall c :: c in frontier <==> c in cs && Undominated(cs, c)
  }

  function LongestConsumed(cs: seq<Candidate>): (n: nat)
    ensures forall c :: c in cs ==> c.consumed <= n
  {
    if cs == [] then 0
    else
      var rest := LongestConsumed(cs[1..]);
      if cs[0].consumed > rest then cs[0].consumed else rest
  }

  /** Above every dropped candidate there is a kept one. */
  lemma {:induction false} DroppedIsDominatedByKept(cs: seq<Candidate>, frontier: seq<Candidate>, c: Candidate) returns (kept: Candidate)
    requires IsFrontier(cs, frontier) && c in cs && c !in frontier
    ensures kept in frontier && Dominates(kept, c)
    decreases c.cost.primaryRankCost + c.rawWeightedCost + c.distance + c.substitutionCount + LongestConsumed(cs) - c.consumed
  {
    var d :| d in cs && Dominates(d, c);
    if d in frontier {
      kept := d;
    } else {
      kept := DroppedIsDominatedByKept(cs, frontier, d);
      DominanceIsStrictOrder(kept, d, c);
    }
  }

  /** Kept candidates never dominate each other, and every other one is dominated by one that is kept. */
  lemma FrontierIsExact(cs: seq<Candidate>, frontier: seq<Candidate>)
    requires IsFrontier(cs, frontier)
    ensures forall a, b :: a in frontier && b in frontier ==> !Dominates(a, b)
    ensures forall c :: c in cs && c !in frontier ==> exists k :: k in frontier && Dominates(k, c)
  {
    forall c | c in cs && c !in frontier
      ensures exists k :: k in frontier && Dominates(k, c)
    {
      var k := DroppedIsDominatedByKept(cs, frontier, c);
    }
  }

  lemma InsertedIsSorted(sorted: seq<Candidate>, c: Candidate, i: nat)
    requires SortedByRank(sorted) && i <= |sorted|
    requires i < |sorted| ==> c.cost.primaryRankCost < sorted[i].cost.primaryRankCost
    requires i > 0 ==> sorted[i - 1].cost.primaryRankCost <= c.cost.primaryRankCost
    ensures SortedByRank(sorted[..i] + [c] + sorted[i..])
  {
    var r := sorted[..i] + [c] + sorted[i..];
    forall a: nat, b: nat | a < b < |r|
      ensures r[a].cost.primaryRankCost <= r[b].cost.primaryRankCost
    {
      assert a < i ==> r[a] == sorted[a];
      assert b > i ==> r[b] == sorted[b - 1];
    }
  }

  method Insert(sorted: seq<Candidate>, c: Candidate) returns (r: seq<Candidate>)
    requires SortedByRank(sorted)
    ensures SortedByRank(r) && multiset(r) == multiset(sorted) + multiset{c}
  {
    hide SortedByRank;
    var i := |sorted|;
    while i > 0 && c.cost.primaryRankCost < sorted[i - 1].cost.primaryRankCost
      invariant 0 <= i <= |sorted|
      invariant i < |sorted| ==> c.cost.primaryRankCost < sorted[i].cost.primaryRankCost
    {
      i := i - 1;
    }
    r := sorted[..i] + [c] + sorted[i..];
    InsertedIsSorted(sorted, c, i);
    assert sorted == sorted[..i] + sorted[i..];
  }

  method SortByRank(cs: seq<Candidate>) returns (r: seq<Candidate>)
    ensures SortedByRank(r) && multiset(r) == multiset(cs)
  {
    r := [];
    for i := 0 to |cs|
      invariant SortedByRank(r) && multiset(r) == multiset(cs[..i])
    {
      r := Insert(r, cs[i]);
      assert cs[..i + 1] == cs[..i] + [cs[i]];
    }
    assert cs[..|cs|] == cs;
  }

  lemma {:induction false} CountsOnce(a: seq<Candidate>, c: Candidate)
    requires Distinct(a)
    ensures multiset(a)[c] <= 1
  {
    if a != [] {
      assert a == [a[0]] + a[1..];
      CountsOnce(a[1..], c);
    }
  }

  lemma SameElements(a: seq<Candidate>, b: seq<Candidate>)
    requires multiset(a) == multiset(b)
    ensures forall c :: c in a <==> c in b
    ensures Distinct(a) ==> Distinct(b)
  {
    forall c
      ensures c in a <==> c in b
    {
      assert c in a <==> c in multiset(a);
      assert c in b <==> c in multiset(b);
    }
    if Distinct(a) && !Distinct(b) {
      var i: nat, j: nat :| i < j < |b| && b[i] == b[j];
      assert b == b[..i] + [b[i]] + b[i + 1..j] + [b[j]] + b[j + 1..];
      assert multiset(b)[b[i]] >= 2;
      CountsOnce(a, b[i]);
    }
  }

  method PruneDominated(cs: seq<Candidate>) returns (frontier: seq<Candidate>)
    ensures IsFrontier(cs, frontier)
  {
    var dominated := new bool[|cs|](_ => false);
    for i := 0 to |cs|
      invariant forall k: nat :: k < i ==> dominated[k] == !Undominated(cs, cs[k])
      invariant forall k: nat :: i <= k < |cs| ==> !dominated[k]
    {
      for other := 0 to |cs|
        invariant forall k: nat :: k < i ==> dominated[k] == !Undominated(cs, cs[k])
        invariant forall k: nat :: i <= k < |cs| ==> !dominated[k]
        invariant forall k: nat :: k < other ==> !Dominates(cs[k], cs[i])
      {
        if other != i && Dominates(cs[other], cs[i]) {
          dominated[i] := true;
          break;
        }
      }
    }
    var kept: seq<Candidate> := [];
    for i := 0 to |cs|
      invariant forall c :: c in kept <==> c in cs[..i] && Undominated(cs, c)
      invariant Distinct(cs) ==> Distinct(kept)
    {
      assert cs[..i + 1] == cs[..i] + [cs[i]];
      if !dominated[i] {
        kept := kept + [cs[i]];
      }
    }
    frontier := SortByRank(kept);
    assert cs[..|cs|] == cs;
    SameElements(kept, frontier);
  }

  /** The whole computation for two byte strings: the exact frontier of everything the matrix offers. */
  method ComputePruned(literal: seq<Byte>, input: seq<Byte>, caseSensitive: bool, wordLike: bool) returns (frontier: seq<Candidate>)
    requires FitsWord(Codepoints(literal, 0), Codepoints(input, 0))
    ensures var decoded := DecodedText(Codepoints(input, 0), Offsets(input, 0));
            exists all :: && Collected(Codepoints(literal, 0), decoded, caseSensitive, wordLike, |decoded.codepoints| + 1, all)
                          && IsFrontier(all, frontier)
  {
    var l := DecodeText(literal);
    var t := DecodeText(input);
    var all := Collect(l.codepoints, t, caseSensitive, wordLike);
    frontier := PruneDominated(all);
  }
}
