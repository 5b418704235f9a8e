/** What a lookup of fuzzy candidates computes from two byte strings when it finds nothing cached. */
module FuzzyMatcher {
  import opened FuzzyScript
  import opened FuzzyText
  import opened FuzzyCandidates
  import opened FuzzyFrontier

  const ANCHOR_WINDOW: nat := 3

  /** The codepoint at `i` is whole within the first `end` bytes. */
  predicate WholeAt(text: seq<Byte>, end: nat, i: nat)
    requires i < end <= |text|
  {
    0 < Utf8Length(text[i]) <= end - i
  }

  /** From `i` on every codepoint is whole and can be part of a word. */
  predicate WordFrom(text: seq<Byte>, i: nat, identifier: nat -> bool)
    requires i <= |text|
    decreases |text| - i
  {
    i == |text| || (WholeAt(text, |text|, i) && identifier(DecodeCodepoint(text, i)) && WordFrom(text, i + Utf8Length(text[i]), identifier))
  }

  predicate IsWordLike(text: seq<Byte>, identifier: nat -> bool) {
    text != [] && WordFrom(text, 0, identifier)
  }

  /** Some codepoint from `i` to `end` cannot be part of a word, and everything before it is whole. */
  predicate LeavesWord(text: seq<Byte>, end: nat, i: nat, identifier: nat -> bool)
    requires i <= end <= |text|
    decreases end - i
  {
    i < end && WholeAt(text, end, i)
    && (!identifier(DecodeCodepoint(text, i)) || LeavesWord(text, end, i + Utf8Length(text[i]), identifier))
  }

  predicate EqualsText(a: seq<Byte>, b: seq<Byte>, caseSensitive: bool) {
    |a| == |b| && forall i: nat :: i < |a| ==> Same(a[i], b[i], caseSensitive)
  }

  function AnchorBytes(text: seq<Byte>): nat {
    if |text| < ANCHOR_WINDOW then |text| else ANCHOR_WINDOW
  }

  /** Two bytes at most one place apart. */
  predicate Close(i: nat, j: nat) { i <= j + 1 && j <= i + 1 }

  /** A byte among the first three of one text is near an equal one among the first three of the other. */
  ghost predicate SharesByte(literal: seq<Byte>, input: seq<Byte>, caseSensitive: bool) {
    exists i: nat, j: nat :: i < AnchorBytes(literal) && j < AnchorBytes(input) && Close(i, j) && Same(literal[i], input[j], caseSensitive)
  }

  /** Words are compared only if they begin alike; anything else always is. */
  ghost predicate HasAnchor(literal: seq<Byte>, input: seq<Byte>, caseSensitive: bool, identifier: nat -> bool) {
    || !IsWordLike(literal, identifier)
    || AnchorBytes(literal) <= 1 || AnchorBytes(input) <= 1
    || LeavesWord(input, AnchorBytes(input), 0, identifier)
    || SharesByte(literal, input, caseSensitive)
  }

  /** `result` is what a fresh computation may give; candidates of equal rank may come in any order. */
  ghost predicate Answers(literal: seq<Byte>, input: seq<Byte>, caseSensitive: bool, identifier: nat -> bool, result: seq<Candidate>) {
    if EqualsText(literal, input, caseSensitive) || !HasAnchor(literal, input, caseSensitive, identifier) then result == []
    else
      var l, t := Codepoints(literal, 0), DecodedText(Codepoints(input, 0), Offsets(input, 0));
      var wordLike := IsWordLike(literal, identifier) && IsWordLike(input, identifier);
      && FitsWord(l, t.codepoints)
      && exists all :: Collected(l, t, caseSensitive, wordLike, |t.codepoints| + 1, all) && IsFrontier(all, result)
  }

  method WordLike(text: seq<Byte>, identifier: nat -> bool) returns (r: bool)
    ensures r == IsWordLike(text, identifier)
  {
    if text == [] {
      return false;
    }
    var i: nat := 0;
    while i < |text|
      invariant i <= |text| && WordFrom(text, 0, identifier) == WordFrom(text, i, identifier)
    {
      var length := Utf8Length(text[i]);
      if length == 0 || length > |text| - i {
        return false;
      }
      if !identifier(DecodeCodepoint(text, i)) {
        return false;
      }
      i := i + length;
    }
    return true;
  }

  method WindowLeavesWord(input: seq<Byte>, window: nat, identifier: nat -> bool) returns (r: bool)
    requires window <= |input|
    ensures r == LeavesWord(input, window, 0, identifier)
  {
    var i: nat := 0;
    while i < window
      invariant i <= window && LeavesWord(input, window, 0, identifier) == LeavesWord(input, window, i, identifier)
    {
      var length := Utf8Length(input[i]);
      if length == 0 || length > window - i {
        return false;
      }
      if !identifier(DecodeCodepoint(input, i)) {
        return true;
      }
      i := i + length;
    }
    return false;
  }

  method FindAnchor(literal: seq<Byte>, input: seq<Byte>, caseSensitive: bool, identifier: nat -> bool) returns (r: bool)
    ensures r == HasAnchor(literal, input, caseSensitive, identifier)
  {
    hide IsWordLike, LeavesWord, Same;
    var words := WordLike(literal, identifier);
    if !words {
      return true;
    }
    var n, m := AnchorBytes(literal), AnchorBytes(input);
    if n <= 1 || m <= 1 {
      return true;
    }
    var leaves := WindowLeavesWord(input, m, identifier);
    if leaves {
      return true;
    }
    for i := 0 to n
      invariant forall x: nat, y: nat :: x < i && y < m && Close(x, y) ==> !Same(literal[x], input[y], caseSensitive)
    {
      for j := 0 to m
        invariant forall x: nat, y: nat :: x < i && y < m && Close(x, y) ==> !Same(literal[x], input[y], caseSensitive)
        invariant forall y: nat :: y < j && Close(i, y) ==> !Same(literal[i], input[y], caseSensitive)
      {
        if !Close(i, j) {
          continue;
        }
        if Same(literal[i], input[j], caseSensitive) {
          return true;
        }
      }
    }
    return false;
  }

  /** Texts are equal if they are as they are compared. */
  lemma EqualsIsPlain(a: seq<Byte>, b: seq<Byte>, caseSensitive: bool)
    ensures EqualsText(a, b, caseSensitive) <==> Cased(a, caseSensitive) == Cased(b, caseSensitive)
  {
    hide Cased, Same;
    forall i: nat | i < |a| && i < |b|
      ensures Same(a[i], b[i], caseSensitive) <==> Cased(a, caseSensitive)[i] == Cased(b, caseSensitive)[i]
    {
      CasedAgrees(a, b, i, i, caseSensitive);
    }
  }

  method CompareText(a: seq<Byte>, b: seq<Byte>, caseSensitive: bool) returns (r: bool)
    ensures r == EqualsText(a, b, caseSensitive)
    ensures r <==> Cased(a, caseSensitive) == Cased(b, caseSensitive)
  {
    EqualsIsPlain(a, b, caseSensitive);
    if |a| != |b| {
      return false;
    }
    for i := 0 to |a|
      invariant forall k: nat :: k < i ==> Same(a[k], b[k], caseSensitive)
    {
      if !Same(a[i], b[i], caseSensitive) {
        return false;
      }
    }
    return true;
  }

  /** A miss: nothing for equal texts or without an anchor, the pruned candidates otherwise. */
  method ComputeAfresh(literal: seq<Byte>, input: seq<Byte>, caseSensitive: bool, identifier: nat -> bool) returns (result: seq<Candidate>)
    requires FitsWord(Codepoints(literal, 0), Codepoints(input, 0))
    ensures Answers(literal, input, caseSensitive, identifier, result)
    ensures Cased(literal, caseSensitive) == Cased(input, caseSensitive) ==> result == []
  {
    hide Cased, HasAnchor, IsWordLike, EqualsText, Collected, IsFrontier, FitsWord, Codepoints, Offsets;
    var equal := CompareText(literal, input, caseSensitive);
    if equal {
      return [];
    }
    var anchored := FindAnchor(literal, input, caseSensitive, identifier);
    if !anchored {
      return [];
    }
    var literalIsWord := WordLike(literal, identifier);
    var inputIsWord := WordLike(input, identifier);
    result := ComputePruned(literal, input, caseSensitive, literalIsWord && inputIsWord);
  }
}
