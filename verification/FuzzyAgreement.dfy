/** The linear detector against the candidates a lookup answers.

    On single-byte codepoints the detector's acceptance is meant to be that of a candidate of
    distance one.  It accepts more: an exact match and a lone codepoint by leaving one out, and
    words with something left over, which the matcher charges as deletions. */
module FuzzyAgreement {
  import opened FuzzyScript
  import opened FuzzyMatrix
  import opened FuzzyText
  import opened FuzzyCandidates
  import opened FuzzyFrontier
  import opened FuzzyDetector
  import opened FuzzyMatcher

  /** What `SingleEditMatch` decides. */
  ghost predicate Detected(literal: Text, window: Text, caseSensitive: bool) {
    literal != [] && exists k: nat :: k <= |window| && OneEdit(literal, window, k, caseSensitive)
  }

  /** A prefix of the input is one edit away: not the empty one, and the whole input if words are compared. */
  ghost predicate OneEditCharged(l: Text, t: Text, caseSensitive: bool, wordLike: bool) {
    exists k: nat :: 1 <= k <= |t| && (wordLike ==> k == |t|) && OneEdit(l, t, k, caseSensitive)
  }

  ghost predicate AtDistanceOne(cs: seq<Candidate>, length: nat) {
    exists c :: c in cs && c.distance == 1 && c.consumedCodepoints <= length + 1 && length <= c.consumedCodepoints + 1
  }

  lemma {:induction false} AnyLaneTurns(l: Text, t: Text, caseSensitive: bool, lane: Lane, i: nat, j: nat, s: seq<Edit>)
    requires i <= |l| && j <= |t| && Turns(l, t, caseSensitive, lane, i, j, s)
    ensures Turns(l, t, caseSensitive, AnyEdit, i, j, s)
    decreases |s|
  {
    if s != [] {
      var e := Last(s);
      AnyLaneTurns(l, t, caseSensitive, lane, i - LiteralSpan(e), j - InputSpan(e), Init(s));
    }
  }

  /** Equal stretches cost nothing in the lane without substitutions either. */
  lemma {:induction false} KeepsInAnyLane(l: Text, t: Text, caseSensitive: bool, lane: Lane, n: nat)
    requires n <= |l| && n <= |t| && Run(l, 0, t, 0, n, caseSensitive)
    ensures Turns(l, t, caseSensitive, lane, n, n, Keeps(n)) && ScriptCost(Keeps(n)) == Cost(0, 0)
    decreases n
  {
    if n > 0 {
      KeepsInAnyLane(l, t, caseSensitive, lane, n - 1);
      RunAt(l, 0, t, 0, n, caseSensitive, n - 1);
      assert Init(Keeps(n)) == Keeps(n - 1) && Last(Keeps(n)) == Keep;
    } else {
      assert Keeps(0) == [];
    }
  }

  /** A cell of one operation, in either lane, is one edit. */
  lemma OneOperationCell(l: Text, t: Text, caseSensitive: bool, lane: Lane, k: nat)
    requires k <= |t| && FitsWord(l, t) && BestCell(l, t, caseSensitive, lane, |l|, k).operations == 1
    ensures OneEdit(l, t, k, caseSensitive)
  {
    hide BestCell, TraceScript, FitsWord, Turns, ScriptCost, OneEditAt, Run;
    var s := TraceScript(l, t, caseSensitive, lane, |l|, k);
    TraceAchievesCell(l, t, caseSensitive, lane, |l|, k);
    AnyLaneTurns(l, t, caseSensitive, lane, |l|, k, s);
    var e, p := OneOperationIsOneEdit(l, t, caseSensitive, |l|, k, s);
    if EqualText(l, |l|, t, k, caseSensitive) {
      KeepsInAnyLane(l, t, caseSensitive, lane, k);
      CellIsLowerBound(l, t, caseSensitive, lane, |l|, k, Keeps(k));
      CountsExplainCost(s);
    }
  }

  /** One edit changes the length by one at most. */
  lemma OneEditLength(l: Text, t: Text, k: nat, caseSensitive: bool)
    requires OneEdit(l, t, k, caseSensitive)
    ensures k <= |t| && k <= |l| + 1 && |l| <= k + 1
  {
  }

  /** A candidate of distance one is offered exactly when some prefix that is charged nothing else is one edit away. */
  lemma DistanceOneIsOffered(l: Text, input: DecodedText, caseSensitive: bool, wordLike: bool, all: seq<Candidate>)
    requires FitsWord(l, input.codepoints) && |input.byteOffset| == |input.codepoints| + 1
    requires Collected(l, input, caseSensitive, wordLike, |input.codepoints| + 1, all)
    ensures AtDistanceOne(all, |l|) <==> OneEditCharged(l, input.codepoints, caseSensitive, wordLike)
    ensures forall c :: c in all ==> c.distance >= 1 && c.consumedCodepoints <= |input.codepoints|
                                     && c.consumed == input.byteOffset[c.consumedCodepoints]
    ensures forall c :: c in all && c.distance == 1 ==> c.consumedCodepoints <= |l| + 1 && |l| <= c.consumedCodepoints + 1
  {
    hide BestCell, FitsWord, OneEdit, TraceScript, FuzzyCost;
    var t := input.codepoints;
    forall c | c in all
      ensures c.distance >= 1 && c.consumedCodepoints <= |t| && c.consumed == input.byteOffset[c.consumedCodepoints]
      ensures c.distance == 1 ==> OneEditCharged(l, t, caseSensitive, wordLike)
      ensures c.distance == 1 ==> c.consumedCodepoints <= |l| + 1 && |l| <= c.consumedCodepoints + 1
    {
      var lane: Lane, k: nat :| k < |t| + 1 && Offered(l, input, caseSensitive, wordLike, lane, k, c);
      if c.distance == 1 {
        OneOperationCell(l, t, caseSensitive, lane, k);
        OneEditLength(l, t, k, caseSensitive);
      }
    }
    if OneEditCharged(l, t, caseSensitive, wordLike) {
      var k: nat :| 1 <= k <= |t| && (wordLike ==> k == |t|) && OneEdit(l, t, k, caseSensitive);
      DetectorAgreesWithMatrix(l, t, k, caseSensitive);
      OneEditLength(l, t, k, caseSensitive);
      var c := CandidateAt(l, input, caseSensitive, wordLike, AnyEdit, k);
      assert Offered(l, input, caseSensitive, wordLike, AnyEdit, k, c);
      assert c in all && c.distance == 1 && c.consumedCodepoints == k;
    }
  }

  /** Pruning keeps a candidate of distance one if there was any. */
  lemma PruningKeepsDistanceOne(all: seq<Candidate>, frontier: seq<Candidate>, length: nat)
    requires IsFrontier(all, frontier) && forall c :: c in all ==> c.distance >= 1
    requires forall c :: c in all && c.distance == 1 ==> c.consumedCodepoints <= length + 1 && length <= c.consumedCodepoints + 1
    ensures AtDistanceOne(all, length) <==> AtDistanceOne(frontier, length)
  {
    if AtDistanceOne(all, length) {
      var c :| c in all && c.distance == 1;
      if c !in frontier {
        var kept := DroppedIsDominatedByKept(all, frontier, c);
        assert kept in all;
      }
    }
  }

  lemma Anchored(literal: seq<Byte>, input: seq<Byte>, caseSensitive: bool, i: nat, j: nat)
    requires i < |literal| && i < 2 && j < |input| && j < 2 && Same(literal[i], input[j], caseSensitive)
    ensures SharesByte(literal, input, caseSensitive)
  {
    assert i < AnchorBytes(literal) && j < AnchorBytes(input) && Close(i, j);
  }

  /** The anchor test never turns a single edit away: it leaves an equal byte among the first two, at most one place off. */
  lemma AnchorAdmitsOneEdit(literal: seq<Byte>, input: seq<Byte>, caseSensitive: bool, identifier: nat -> bool, k: nat)
    requires 1 <= k && OneEdit(literal, input, k, caseSensitive)
    ensures HasAnchor(literal, input, caseSensitive, identifier)
  {
    hide IsWordLike, LeavesWord, Same;
    var e, p: nat :| OneEditAt(literal, |literal|, input, k, caseSensitive, e, p);
    if |literal| >= 2 && |input| >= 2 {
      if p > 0 {
        RunAt(literal, 0, input, 0, p, caseSensitive, 0);
        Anchored(literal, input, caseSensitive, 0, 0);
      } else if e.Transpose? {
        Anchored(literal, input, caseSensitive, 0, 1);
      } else {
        RunAt(literal, LiteralSpan(e), input, InputSpan(e), |literal| - LiteralSpan(e), caseSensitive, 0);
        Anchored(literal, input, caseSensitive, LiteralSpan(e), InputSpan(e));
      }
    }
  }

  /** Leaving out the last codepoint of an exact match is one edit, so the detector accepts exact matches too. */
  lemma EqualTextIsDetected(literal: seq<Byte>, input: seq<Byte>, caseSensitive: bool)
    requires literal != [] && EqualsText(literal, input, caseSensitive)
    ensures Detected(literal, input, caseSensitive)
  {
    var n := |literal| - 1;
    assert OneEditAt(literal, |literal|, input, n, caseSensitive, InsertMissing, n);
    assert OneEdit(literal, input, n, caseSensitive);
  }

  /** Where no words are compared, a detected edit always has a charged prefix. */
  lemma DetectedIsCharged(literal: seq<Byte>, input: seq<Byte>, caseSensitive: bool)
    requires literal != [] && input != [] && !EqualsText(literal, input, caseSensitive) && Detected(literal, input, caseSensitive)
    ensures OneEditCharged(literal, input, caseSensitive, false)
  {
    var k: nat :| k <= |input| && OneEdit(literal, input, k, caseSensitive);
    if k == 0 {
      if Same(literal[0], input[0], caseSensitive) {
        assert |literal| == 1 && |input| >= 2;
        assert OneEditAt(literal, 1, input, 2, caseSensitive, DeleteUnexpected, 1);
        assert OneEdit(literal, input, 2, caseSensitive);
      } else {
        assert |literal| == 1;
        assert OneEditAt(literal, 1, input, 1, caseSensitive, Substitute, 0);
        assert !EqualText(literal, 1, input, 1, caseSensitive);
        assert OneEdit(literal, input, 1, caseSensitive);
      }
    }
  }

  lemma KeptWereOffered(all: seq<Candidate>, frontier: seq<Candidate>)
    requires IsFrontier(all, frontier)
    ensures forall c :: c in frontier ==> c in all
  {
  }

  /** On single-byte text a lookup answers a candidate of distance one exactly when the texts differ and some prefix
      that is charged nothing else is one edit away. */
  lemma AnsweredAtDistanceOne(literal: seq<Byte>, input: seq<Byte>, caseSensitive: bool, identifier: nat -> bool, result: seq<Candidate>)
    requires Ascii(literal) && Ascii(input) && Answers(literal, input, caseSensitive, identifier, result)
    ensures var wordLike := IsWordLike(literal, identifier) && IsWordLike(input, identifier);
            AtDistanceOne(result, |literal|) <==>
              !EqualsText(literal, input, caseSensitive) && OneEditCharged(literal, input, caseSensitive, wordLike)
    ensures forall c :: c in result ==> c.consumed == c.consumedCodepoints
  {
    hide IsWordLike, EqualsText, HasAnchor, Collected, IsFrontier, FitsWord, OneEdit, Codepoints, Offsets;
    AsciiDecodesToItself(literal, 0);
    AsciiDecodesToItself(input, 0);
    assert literal[0..] == literal && input[0..] == input;
    var wordLike := IsWordLike(literal, identifier) && IsWordLike(input, identifier);
    if HasAnchor(literal, input, caseSensitive, identifier) && !EqualsText(literal, input, caseSensitive) {
      var decoded := DecodedText(Codepoints(input, 0), Offsets(input, 0));
      var all :| Collected(Codepoints(literal, 0), decoded, caseSensitive, wordLike, |decoded.codepoints| + 1, all) && IsFrontier(all, result);
      DistanceOneIsOffered(literal, decoded, caseSensitive, wordLike, all);
      PruningKeepsDistanceOne(all, result, |literal|);
      KeptWereOffered(all, result);
    } else if !EqualsText(literal, input, caseSensitive) && OneEditCharged(literal, input, caseSensitive, wordLike) {
      var k: nat :| 1 <= k <= |input| && OneEdit(literal, input, k, caseSensitive);
      AnchorAdmitsOneEdit(literal, input, caseSensitive, identifier, k);
    }
  }

  /** The same of the texts as they are compared: nothing if they are equal, and otherwise a candidate of distance one exactly
      when some prefix that is charged nothing else is one edit away. */
  lemma AnsweredPlainly(literal: seq<Byte>, input: seq<Byte>, caseSensitive: bool, identifier: nat -> bool, result: seq<Candidate>)
    requires Ascii(literal) && Ascii(input) && Answers(literal, input, caseSensitive, identifier, result)
    ensures var wordLike := IsWordLike(literal, identifier) && IsWordLike(input, identifier);
            var l, t := Cased(literal, caseSensitive), Cased(input, caseSensitive);
            && (l == t ==> result == [])
            && (AtDistanceOne(result, |literal|) <==>
                  l != t && exists k: nat :: 1 <= k <= |input| && (wordLike ==> k == |input|) && PlainEdit(l, t[..k]))
  {
    hide IsWordLike, HasAnchor, OneEdit, PlainEdit, Cased, AtDistanceOne;
    EqualsIsPlain(literal, input, caseSensitive);
    AnsweredAtDistanceOne(literal, input, caseSensitive, identifier, result);
    forall k: nat | k <= |input|
      ensures OneEdit(literal, input, k, caseSensitive) <==> PlainEdit(Cased(literal, caseSensitive), Cased(input, caseSensitive)[..k])
    {
      OneEditIsPlain(literal, input, k, caseSensitive);
    }
  }

  /** ASCII text is made of its bytes, and a zero byte starts nothing. */
  lemma {:induction false} AsciiWordIff(text: seq<Byte>, i: nat, identifier: nat -> bool)
    requires i <= |text| && Ascii(text)
    ensures WordFrom(text, i, identifier) <==> forall k: nat :: i <= k < |text| ==> 0 < text[k] && identifier(text[k])
    decreases |text| - i
  {
    if i < |text| {
      AsciiWordIff(text, i + 1, identifier);
    }
  }

  lemma {:induction false} WordIsNotLeft(text: seq<Byte>, end: nat, i: nat, identifier: nat -> bool)
    requires i <= end <= |text| && Ascii(text) && WordFrom(text, i, identifier)
    ensures !LeavesWord(text, end, i, identifier)
    decreases end - i
  {
    if i < end {
      WordIsNotLeft(text, end, i + 1, identifier);
    }
  }

  /** Two words of at least two bytes that have no byte in common near their start are not compared at all. */
  lemma UnlikeWordsGetNothing(literal: seq<Byte>, input: seq<Byte>, caseSensitive: bool, identifier: nat -> bool, result: seq<Candidate>)
    requires |literal| >= 2 && |input| >= 2 && Ascii(literal) && Ascii(input)
    requires forall k: nat :: k < |literal| ==> 0 < literal[k] && identifier(literal[k])
    requires forall k: nat :: k < |input| ==> 0 < input[k] && identifier(input[k])
    requires forall i: nat, j: nat :: i < 3 && i < |literal| && j < 3 && j < |input| && i <= j + 1 && j <= i + 1 ==>
               Cased(literal, caseSensitive)[i] != Cased(input, caseSensitive)[j]
    requires Answers(literal, input, caseSensitive, identifier, result)
    ensures result == []
  {
    AsciiWordIff(literal, 0, identifier);
    AsciiWordIff(input, 0, identifier);
    WordIsNotLeft(input, AnchorBytes(input), 0, identifier);
    hide Cased, Same, WordFrom, LeavesWord, Collected, IsFrontier;
    forall i: nat, j: nat | i < AnchorBytes(literal) && j < AnchorBytes(input) && Close(i, j)
      ensures !Same(literal[i], input[j], caseSensitive)
    {
      CasedAgrees(literal, input, i, j, caseSensitive);
    }
    assert !HasAnchor(literal, input, caseSensitive, identifier);
  }

  /** What a lookup may answer; nothing for empty texts. */
  ghost predicate LooksUp(literal: seq<Byte>, input: seq<Byte>, caseSensitive: bool, identifier: nat -> bool, result: seq<Candidate>) {
    if literal == [] || input == [] then result == [] else Answers(literal, input, caseSensitive, identifier, result)
  }

  /** Leaving out a lone codepoint is the only edit that nothing matches. */
  lemma DetectedInNothing(literal: seq<Byte>, caseSensitive: bool)
    ensures Detected(literal, [], caseSensitive) <==> |literal| == 1
  {
    if |literal| == 1 {
      assert OneEditAt(literal, 1, [], 0, caseSensitive, InsertMissing, 0);
      assert OneEdit(literal, [], 0, caseSensitive);
    }
  }

  /** Words count to the end: if a proper prefix of the input is one edit away, so is the whole input. */
  ghost predicate WholeIfAnyPrefix(literal: seq<Byte>, input: seq<Byte>, caseSensitive: bool) {
    forall k: nat :: k < |input| && OneEdit(literal, input, k, caseSensitive) ==> OneEdit(literal, input, |input|, caseSensitive)
  }

  lemma WholeUnlessNothing(literal: seq<Byte>, input: seq<Byte>, caseSensitive: bool)
    requires literal != []
    ensures WholeIfAnyPrefix(literal, input, caseSensitive)
            <==> (Detected(literal, input, caseSensitive) ==> OneEdit(literal, input, |input|, caseSensitive))
  {
    hide OneEdit;
  }

  lemma AgreesIfCharged(literal: seq<Byte>, input: seq<Byte>, caseSensitive: bool, identifier: nat -> bool, result: seq<Candidate>)
    requires literal != [] && input != [] && Ascii(literal) && Ascii(input)
    requires Answers(literal, input, caseSensitive, identifier, result)
    ensures var wordLike := IsWordLike(literal, identifier) && IsWordLike(input, identifier);
            (Detected(literal, input, caseSensitive) <==> AtDistanceOne(result, |literal|))
            <==> && !EqualsText(literal, input, caseSensitive)
                 && (wordLike && Detected(literal, input, caseSensitive) ==> OneEdit(literal, input, |input|, caseSensitive))
  {
    hide IsWordLike, Answers, OneEdit, AtDistanceOne;
    AnsweredAtDistanceOne(literal, input, caseSensitive, identifier, result);
    if EqualsText(literal, input, caseSensitive) {
      EqualTextIsDetected(literal, input, caseSensitive);
    } else if Detected(literal, input, caseSensitive) {
      DetectedIsCharged(literal, input, caseSensitive);
    }
  }

  /** On single-byte text the detector agrees with the lookup if and only if the input is not empty under a lone codepoint,
      the texts differ, and, when words are compared, no proper prefix is one edit away unless the whole input is. */
  lemma DetectorAgreesWithLookupIff(literal: seq<Byte>, input: seq<Byte>, caseSensitive: bool, identifier: nat -> bool, result: seq<Candidate>)
    requires Ascii(literal) && Ascii(input) && LooksUp(literal, input, caseSensitive, identifier, result)
    ensures var wordLike := IsWordLike(literal, identifier) && IsWordLike(input, identifier);
            (Detected(literal, input, caseSensitive) <==> AtDistanceOne(result, |literal|))
            <==> && (input == [] ==> |literal| != 1)
                 && (literal != [] ==> !EqualsText(literal, input, caseSensitive))
                 && (wordLike ==> WholeIfAnyPrefix(literal, input, caseSensitive))
  {
    if literal == [] || input == [] {
      DetectedInNothing(literal, caseSensitive);
    } else {
      hide IsWordLike, Answers, Detected, WholeIfAnyPrefix, OneEdit, AtDistanceOne, EqualsText;
      AgreesIfCharged(literal, input, caseSensitive, identifier, result);
      WholeUnlessNothing(literal, input, caseSensitive);
    }
  }

  const ABCD: seq<Byte> := [97, 98, 99, 100]
  const ABXDZ: seq<Byte> := [97, 98, 120, 100, 122]

  predicate AnyCodepoint(c: nat) { true }

  /** If every codepoint can be part of a word, ASCII text without NUL is one. */
  lemma {:induction false} AsciiIsWord(text: seq<Byte>, i: nat)
    requires i <= |text| && forall k: nat :: k < |text| ==> 0 < text[k] < 0x80
    ensures WordFrom(text, i, AnyCodepoint)
    decreases |text| - i
  {
    if i < |text| {
      AsciiIsWord(text, i + 1);
    }
  }

  lemma BothAreWords()
    requires WordFrom(ABCD, 0, AnyCodepoint) && WordFrom(ABXDZ, 0, AnyCodepoint)
    ensures IsWordLike(ABCD, AnyCodepoint) && IsWordLike(ABXDZ, AnyCodepoint)
  {
    hide WordFrom;
  }

  lemma PrefixIsOneAway()
    ensures OneEdit(ABCD, ABXDZ, 4, true)
  {
    assert OneEditAt(ABCD, 4, ABXDZ, 4, true, Substitute, 2);
    assert !Same(ABCD[2], ABXDZ[2 - 0 + 0], true);
  }

  lemma WholeIsTwoAway()
    ensures !OneEdit(ABCD, ABXDZ, 5, true)
  {
    if OneEdit(ABCD, ABXDZ, 5, true) {
      var e, p: nat :| OneEditAt(ABCD, 4, ABXDZ, 5, true, e, p);
      if p > 2 {
        RunAt(ABCD, 0, ABXDZ, 0, p, true, 2);
      } else {
        RunAt(ABCD, p, ABXDZ, p + 1, 4 - p, true, 2 - p);
      }
    }
  }

  /** Among words the promise fails: `abcd` is one substitution from the start of `abxdz`, but the `z` left over is charged. */
  lemma DetectorOverpromisesOnWords()
    ensures Detected(ABCD, ABXDZ, true)
    ensures forall result :: LooksUp(ABCD, ABXDZ, true, AnyCodepoint, result) ==> !AtDistanceOne(result, |ABCD|)
  {
    hide LooksUp, OneEdit, AtDistanceOne, IsWordLike;
    PrefixIsOneAway();
    WholeIsTwoAway();
    AsciiIsWord(ABCD, 0);
    AsciiIsWord(ABXDZ, 0);
    BothAreWords();
    forall result | LooksUp(ABCD, ABXDZ, true, AnyCodepoint, result)
      ensures !AtDistanceOne(result, |ABCD|)
    {
      DetectorAgreesWithLookupIff(ABCD, ABXDZ, true, AnyCodepoint, result);
    }
  }
}
