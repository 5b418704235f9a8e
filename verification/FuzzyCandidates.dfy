/** The candidates read off the last matrix row, and their Pareto frontier. */
module FuzzyCandidates {
  import opened FuzzyScript
  import opened FuzzyMatrix
  import opened FuzzyText

  datatype RecoveryCost = RecoveryCost(budgetCost: nat, primaryRankCost: nat)

  datatype Candidate = Candidate(
    consumed: nat,
    consumedCodepoints: nat,
    distance: nat,
    operationCount: nat,
    rawWeightedCost: nat,
    cost: RecoveryCost,
    insertionCount: nat,
    deletionCount: nat,
    substitutionCount: nat,
    transpositionCount: nat)

  const REFERENCE_LITERAL_LENGTH := 5

  function CeilDiv(numerator: nat, denominator: nat): nat {
    if denominator == 0 then numerator else (numerator + denominator - 1) / denominator
  }

  /** The weight as budget cost, and its share per reference length as rank cost. */
  function FuzzyCost(literalCodepoints: nat, weight: nat): RecoveryCost {
    RecoveryCost(weight, CeilDiv(weight * REFERENCE_LITERAL_LENGTH, if literalCodepoints > 1 then literalCodepoints else 1))
  }

  /** The rank cost is the least share: as many times the literal's length as five times the weight asks for. */
  lemma RankIsLeastShare(literalCodepoints: nat, weight: nat)
    ensures var rank, n := FuzzyCost(literalCodepoints, weight).primaryRankCost, if literalCodepoints == 0 then 1 else literalCodepoints;
            5 * weight <= rank * n && (rank > 0 ==> (rank - 1) * n < 5 * weight)
  {
    var n := if literalCodepoints > 1 then literalCodepoints else 1;
    var numerator := weight * REFERENCE_LITERAL_LENGTH + n - 1;
    assert numerator == numerator / n * n + numerator % n;
    var rank := numerator / n;
    assert (rank - 1) * n == rank * n - n;
  }

  /** The candidate of a cell of the last row: the counts of its script, and in a word-like space
      the codepoints past the consumed ones counted as deletions. */
  ghost function CandidateAt(l: Text, input: DecodedText, caseSensitive: bool, wordLike: bool, lane: Lane, consumed: nat): Candidate
    requires FitsWord(l, input.codepoints) && consumed <= |input.codepoints| && |input.byteOffset| == |input.codepoints| + 1
  {
    var t := input.codepoints;
    var cell := BestCell(l, t, caseSensitive, lane, |l|, consumed);
    var counts := TallyOf(TraceScript(l, t, caseSensitive, lane, |l|, consumed));
    var trailing := if wordLike then |t| - consumed else 0;
    Candidate(input.byteOffset[consumed], consumed,
              cell.operations + trailing,
              counts.insertions + counts.deletions + counts.substitutions + counts.transpositions + trailing,
              cell.weight + trailing * DELETION_COST,
              FuzzyCost(|l|, cell.weight + trailing * DELETION_COST),
              counts.insertions, counts.deletions + trailing, counts.substitutions, counts.transpositions)
  }

  /** Every candidate explains itself: its counts add up to its distance and weight, and leave the
      same number of kept codepoints in the literal and in what is charged of the input. */
  lemma CandidateExplained(l: Text, input: DecodedText, caseSensitive: bool, wordLike: bool, lane: Lane, consumed: nat)
    requires FitsWord(l, input.codepoints) && consumed <= |input.codepoints| && |input.byteOffset| == |input.codepoints| + 1
    ensures var c := CandidateAt(l, input, caseSensitive, wordLike, lane, consumed);
            && c.operationCount == c.distance == c.insertionCount + c.deletionCount + c.substitutionCount + c.transpositionCount
            && c.rawWeightedCost == c.insertionCount + 4 * c.deletionCount + 2 * c.substitutionCount + 2 * c.transpositionCount
            && (lane.NoSubstitution? ==> c.substitutionCount == 0)
            && c.consumedCodepoints == consumed && c.consumed == input.byteOffset[consumed]
            && c.cost.budgetCost == c.rawWeightedCost && c.cost == FuzzyCost(|l|, c.rawWeightedCost)
            && (var charged := if wordLike then |input.codepoints| else consumed;
                |l| - c.substitutionCount - c.insertionCount - 2 * c.transpositionCount
                == charged - c.substitutionCount - c.deletionCount - 2 * c.transpositionCount >= 0)
  {
    hide BestCell, TraceScript, Count;
    var t := input.codepoints;
    var s := TraceScript(l, t, caseSensitive, lane, |l|, consumed);
    TraceAchievesCell(l, t, caseSensitive, lane, |l|, consumed);
    CountsExplainCost(s);
    CountsTileTexts(l, t, caseSensitive, lane, |l|, consumed, s);
  }

  method Reconstruct(parents: array<ParentTrace>, l: Text, input: DecodedText, caseSensitive: bool, lane: Lane, consumed: nat, cell: DpCell)
    returns (c: Candidate)
    requires FitsWord(l, input.codepoints) && consumed <= |input.codepoints| && |input.byteOffset| == |input.codepoints| + 1
    requires parents.Length == Flat(|input.codepoints| + 1, |l| + 1, 0)
    requires HoldsParents(parents[..], l, input.codepoints, caseSensitive, parents.Length)
    requires cell == BestCell(l, input.codepoints, caseSensitive, lane, |l|, consumed)
    ensures c == CandidateAt(l, input, caseSensitive, false, lane, consumed)
  {
    hide BestCell, TraceScript, Count, FuzzyCost;
    var counts := WalkBack(parents, l, input.codepoints, caseSensitive, lane, consumed);
    c := Candidate(input.byteOffset[consumed], consumed, cell.operations,
                   counts.insertions + counts.deletions + counts.substitutions + counts.transpositions,
                   cell.weight, FuzzyCost(|l|, cell.weight),
                   counts.insertions, counts.deletions, counts.substitutions, counts.transpositions);
  }

  /** Codepoints left over in a word-like space, charged as deletions. */
  function WithTrailing(l: Text, c: Candidate, trailing: nat): Candidate {
    var weight := c.rawWeightedCost + trailing * DELETION_COST;
    c.(distance := c.distance + trailing,
       deletionCount := c.deletionCount + trailing,
       rawWeightedCost := weight,
       operationCount := c.operationCount + trailing,
       cost := FuzzyCost(|l|, weight))
  }

  ghost predicate Distinct(cs: seq<Candidate>) {
    forall i: nat, j: nat :: i < j < |cs| ==> cs[i] != cs[j]
  }

  method Push(cs: seq<Candidate>, c: Candidate) returns (r: seq<Candidate>)
    requires Distinct(cs)
    ensures Distinct(r) && forall d :: d in r <==> d in cs || d == c
  {
    for i := 0 to |cs|
      invariant forall k: nat :: k < i ==> cs[k] != c
    {
      if cs[i] == c {
        return cs;
      }
    }
    r := cs + [c];
  }

  /** A candidate is offered for a consumed length and a lane whose cell is not free. */
  ghost predicate Offered(l: Text, input: DecodedText, caseSensitive: bool, wordLike: bool, lane: Lane, consumed: nat, c: Candidate)
    requires FitsWord(l, input.codepoints) && |input.byteOffset| == |input.codepoints| + 1
  {
    && 1 <= consumed <= |input.codepoints|
    && BestCell(l, input.codepoints, caseSensitive, lane, |l|, consumed).operations != 0
    && c == CandidateAt(l, input, caseSensitive, wordLike, lane, consumed)
  }

  /** All candidates of consumed lengths below `limit`, and for `limit` itself those of the lanes done. */
  ghost predicate Collected(l: Text, input: DecodedText, caseSensitive: bool, wordLike: bool, limit: nat, cs: seq<Candidate>)
    requires FitsWord(l, input.codepoints) && |input.byteOffset| == |input.codepoints| + 1
  {
    && Distinct(cs)
    && (forall c :: c in cs ==> exists lane: Lane, k: nat :: k < limit && Offered(l, input, caseSensitive, wordLike, lane, k, c))
    && (forall lane: Lane, k: nat, c :: k < limit && Offered(l, input, caseSensitive, wordLike, lane, k, c) ==> c in cs)
  }

  method CollectLane(parents: array<ParentTrace>, l: Text, input: DecodedText, caseSensitive: bool, wordLike: bool, lane: Lane,
                     consumed: nat, cell: DpCell, cs: seq<Candidate>)
    returns (r: seq<Candidate>)
    requires FitsWord(l, input.codepoints) && 1 <= consumed <= |input.codepoints| && |input.byteOffset| == |input.codepoints| + 1
    requires parents.Length == Flat(|input.codepoints| + 1, |l| + 1, 0)
    requires HoldsParents(parents[..], l, input.codepoints, caseSensitive, parents.Length)
    requires cell == BestCell(l, input.codepoints, caseSensitive, lane, |l|, consumed)
    requires Distinct(cs)
    ensures Distinct(r)
    ensures forall c :: c in r <==> c in cs || Offered(l, input, caseSensitive, wordLike, lane, consumed, c)
  {
    hide BestCell, TraceScript, Count, FuzzyCost, HoldsParents;
    if cell.operations == NO_MATCH || cell.operations == 0 {
      return cs;
    }
    var c := Reconstruct(parents, l, input, caseSensitive, lane, consumed, cell);
    if wordLike && consumed < |input.codepoints| {
      c := WithTrailing(l, c, |input.codepoints| - consumed);
    }
    r := Push(cs, c);
  }

  lemma CollectedGrows(l: Text, input: DecodedText, caseSensitive: bool, wordLike: bool, k: nat, was: seq<Candidate>, now: seq<Candidate>)
    requires FitsWord(l, input.codepoints) && |input.byteOffset| == |input.codepoints| + 1
    requires Collected(l, input, caseSensitive, wordLike, k, was) && Distinct(now)
    requires forall c :: c in now <==> c in was || Offered(l, input, caseSensitive, wordLike, AnyEdit, k, c)
                                       || Offered(l, input, caseSensitive, wordLike, NoSubstitution, k, c)
    ensures Collected(l, input, caseSensitive, wordLike, k + 1, now)
  {
    hide Offered;
    forall c | c in now
      ensures exists lane: Lane, k': nat :: k' < k + 1 && Offered(l, input, caseSensitive, wordLike, lane, k', c)
    {
      if c in was {
        var lane: Lane, k': nat :| k' < k && Offered(l, input, caseSensitive, wordLike, lane, k', c);
        assert k' < k + 1;
      }
    }
    forall lane: Lane, k': nat, c | k' < k + 1 && Offered(l, input, caseSensitive, wordLike, lane, k', c)
      ensures c in now
    {
      if k' == k {
        assert lane == AnyEdit || lane == NoSubstitution;
      }
    }
  }

  /** Every distinct candidate of the matrix, none else. */
  method Collect(l: Text, input: DecodedText, caseSensitive: bool, wordLike: bool) returns (cs: seq<Candidate>)
    requires FitsWord(l, input.codepoints) && |input.byteOffset| == |input.codepoints| + 1
    ensures Collected(l, input, caseSensitive, wordLike, |input.codepoints| + 1, cs)
  {
    hide BestCell, TraceScript, CandidateAt, HoldsParents;
    var t := input.codepoints;
    var ring, parents := FillMatrix(l, t, caseSensitive);
    cs := [];
    for consumed := 1 to |t| + 1
      invariant HoldsRow(ring, l, t, caseSensitive, |l|, |t| + 1)
      invariant parents.Length == Flat(|t| + 1, |l| + 1, 0) && HoldsParents(parents[..], l, t, caseSensitive, parents.Length)
      invariant Collected(l, input, caseSensitive, wordLike, consumed, cs)
    {
      var state := ring[|l| % 3, consumed];
      assert state == StateAt(l, t, caseSensitive, |l|, consumed);
      ghost var before := cs;
      cs := CollectLane(parents, l, input, caseSensitive, wordLike, AnyEdit, consumed, state.anyEdit, cs);
      cs := CollectLane(parents, l, input, caseSensitive, wordLike, NoSubstitution, consumed, state.noSubstitution, cs);
      CollectedGrows(l, input, caseSensitive, wordLike, consumed, before, cs);
    }
  }
}
