/** Lossy UTF-8 decoding with the table that maps codepoint counts back to byte offsets. */
module FuzzyText {

  type Byte = b: nat | b < 256

  /** What the length table holds for a byte that starts no codepoint; no text is that long. */
  const NO_LENGTH: nat := 0xFFFF_FFFF_FFFF_FFFF

  function Utf8Length(lead: Byte): nat {
    if lead == 0 then 0
    else if lead < 0x80 then 1
    else if 0xC0 <= lead < 0xE0 then 2
    else if 0xE0 <= lead < 0xF0 then 3
    else if 0xF0 <= lead < 0xF8 then 4
    else NO_LENGTH
  }

  /** The payload of a continuation byte. */
  function Tail(text: seq<Byte>, i: nat): nat
    requires i < |text|
  {
    var b: nat := text[i];
    b % 64
  }

  /** The codepoint at `i`, whose bytes are all there. */
  function DecodeCodepoint(text: seq<Byte>, i: nat): nat
    requires i < |text| && 0 < Utf8Length(text[i]) <= |text| - i
  {
    var lead: nat := text[i];
    match Utf8Length(text[i])
    case 2 => lead % 32 * 64 + Tail(text, i + 1)
    case 3 => lead % 16 * 4096 + Tail(text, i + 1) * 64 + Tail(text, i + 2)
    case 4 => lead % 8 * 262144 + Tail(text, i + 1) * 4096 + Tail(text, i + 2) * 64 + Tail(text, i + 3)
    case _ => lead
  }

  /** The lead byte cannot start a whole codepoint here and counts as one of its own. */
  predicate Lossy(text: seq<Byte>, i: nat)
    requires i < |text|
  {
    Utf8Length(text[i]) == 0 || Utf8Length(text[i]) == NO_LENGTH || Utf8Length(text[i]) > |text| - i
  }

  function StepLength(text: seq<Byte>, i: nat): (n: nat)
    requires i < |text|
    ensures 1 <= n <= 4 && i + n <= |text|
  {
    if Lossy(text, i) then 1 else Utf8Length(text[i])
  }

  function StepCodepoint(text: seq<Byte>, i: nat): nat
    requires i < |text|
  {
    if Lossy(text, i) then text[i] else DecodeCodepoint(text, i)
  }

  function Codepoints(text: seq<Byte>, i: nat): seq<nat>
    requires i <= |text|
    decreases |text| - i
  {
    if i == |text| then [] else [StepCodepoint(text, i)] + Codepoints(text, i + StepLength(text, i))
  }

  function Offsets(text: seq<Byte>, i: nat): (offsets: seq<nat>)
    requires i <= |text|
    ensures |offsets| == |Codepoints(text, i)| + 1
    ensures offsets[0] == i
    decreases |text| - i
  {
    if i == |text| then [i] else [i] + Offsets(text, i + StepLength(text, i))
  }

  datatype DecodedText = DecodedText(codepoints: seq<nat>, byteOffset: seq<nat>)

  lemma Regroup(a: seq<nat>, x: nat, b: seq<nat>)
    ensures a + ([x] + b) == a + [x] + b
  {}

  method DecodeText(text: seq<Byte>) returns (decoded: DecodedText)
    ensures decoded == DecodedText(Codepoints(text, 0), Offsets(text, 0))
  {
    hide Utf8Length, DecodeCodepoint;
    var codepoints: seq<nat>, byteOffset: seq<nat> := [], [];
    var index := 0;
    while index < |text|
      invariant index <= |text|
      invariant Codepoints(text, 0) == codepoints + Codepoints(text, index)
      invariant Offsets(text, 0) == byteOffset + Offsets(text, index)
      decreases |text| - index
    {
      ghost var next := index + StepLength(text, index);
      Regroup(codepoints, StepCodepoint(text, index), Codepoints(text, next));
      Regroup(byteOffset, index, Offsets(text, next));
      byteOffset := byteOffset + [index];
      if Lossy(text, index) {
        codepoints := codepoints + [text[index]];
        index := index + 1;
        continue;
      }
      codepoints := codepoints + [DecodeCodepoint(text, index)];
      index := index + Utf8Length(text[index]);
    }
    byteOffset := byteOffset + [|text|];
    decoded := DecodedText(codepoints, byteOffset);
  }

  /** What four bytes can encode. */
  type Codepoint = c: nat | c < 0x20_0000

  /** UTF-8, section 3 of RFC 3629, without its gaps. */
  function Encoded(c: Codepoint): (bytes: seq<Byte>)
    ensures 1 <= |bytes| <= 4
  {
    if c < 0x80 then [c]
    else if c < 0x800 then [192 + c / 64, 128 + c % 64]
    else if c < 0x1_0000 then [224 + c / 4096, 128 + c / 64 % 64, 128 + c % 64]
    else [240 + c / 262144, 128 + c / 4096 % 64, 128 + c / 64 % 64, 128 + c % 64]
  }

  function EncodedAll(cs: seq<Codepoint>): seq<Byte> {
    if cs == [] then [] else Encoded(cs[0]) + EncodedAll(cs[1..])
  }

  lemma Payload(x: nat)
    ensures x < 32 ==> (192 + x) % 32 == x
    ensures x < 16 ==> (224 + x) % 16 == x
    ensures x < 8 ==> (240 + x) % 8 == x
  {
  }

  lemma SixBits(c: nat)
    ensures c == c / 64 * 64 + c % 64 && c / 64 == c / 4096 * 64 + c / 64 % 64 && c / 4096 == c / 262144 * 64 + c / 4096 % 64
  {
    assert c / 64 / 64 == c / 4096 && c / 4096 / 64 == c / 262144;
  }

  lemma OneByteDecodes(text: seq<Byte>, i: nat, c: Codepoint)
    requires c < 0x80 && i < |text| && text[i] == c
    ensures StepLength(text, i) == 1 && StepCodepoint(text, i) == c
  {
  }

  lemma TwoBytesDecode(text: seq<Byte>, i: nat, c: Codepoint)
    requires 0x80 <= c < 0x800 && i + 2 <= |text| && text[i] == 192 + c / 64 && text[i + 1] == 128 + c % 64
    ensures StepLength(text, i) == 2 && StepCodepoint(text, i) == c
  {
    SixBits(c);
    assert Utf8Length(text[i]) == 2;
    assert Tail(text, i + 1) == c % 64;
    Payload(c / 64);
  }

  lemma ThreeBytesDecode(text: seq<Byte>, i: nat, c: Codepoint)
    requires 0x800 <= c < 0x1_0000 && i + 3 <= |text|
    requires text[i] == 224 + c / 4096 && text[i + 1] == 128 + c / 64 % 64 && text[i + 2] == 128 + c % 64
    ensures StepLength(text, i) == 3 && StepCodepoint(text, i) == c
  {
    SixBits(c);
    assert Utf8Length(text[i]) == 3;
    assert Tail(text, i + 1) == c / 64 % 64 && Tail(text, i + 2) == c % 64;
    Payload(c / 4096);
  }

  lemma FourBytesDecode(text: seq<Byte>, i: nat, c: Codepoint)
    requires 0x1_0000 <= c && i + 4 <= |text|
    requires text[i] == 240 + c / 262144 && text[i + 1] == 128 + c / 4096 % 64
    requires text[i + 2] == 128 + c / 64 % 64 && text[i + 3] == 128 + c % 64
    ensures StepLength(text, i) == 4 && StepCodepoint(text, i) == c
  {
    SixBits(c);
    assert Utf8Length(text[i]) == 4;
    assert Tail(text, i + 1) == c / 4096 % 64 && Tail(text, i + 2) == c / 64 % 64 && Tail(text, i + 3) == c % 64;
    Payload(c / 262144);
  }

  lemma StepDecodes(before: seq<Byte>, c: Codepoint, rest: seq<Byte>)
    ensures var text := before + Encoded(c) + rest;
            StepLength(text, |before|) == |Encoded(c)| && StepCodepoint(text, |before|) == c
  {
    hide StepLength, StepCodepoint;
    var text := before + Encoded(c) + rest;
    if c < 0x80 {
      OneByteDecodes(text, |before|, c);
    } else if c < 0x800 {
      TwoBytesDecode(text, |before|, c);
    } else if c < 0x1_0000 {
      ThreeBytesDecode(text, |before|, c);
    } else {
      FourBytesDecode(text, |before|, c);
    }
  }

  lemma CodepointsStep(text: seq<Byte>, i: nat, n: nat, c: nat)
    requires i < |text| && StepLength(text, i) == n && StepCodepoint(text, i) == c
    ensures Codepoints(text, i) == [c] + Codepoints(text, i + n)
  {
    hide StepLength, StepCodepoint;
  }

  lemma NothingDecodes(text: seq<Byte>)
    ensures Codepoints(text, |text|) == []
  {
  }

  /** Decoding gives back what was encoded. */
  lemma {:induction false} DecodesWhatWasEncoded(before: seq<Byte>, cs: seq<Codepoint>)
    ensures Codepoints(before + EncodedAll(cs), |before|) == cs
    decreases |cs|
  {
    hide StepLength, StepCodepoint, Encoded, Codepoints;
    if cs == [] {
      NothingDecodes(before + EncodedAll(cs));
      assert before + EncodedAll(cs) == before;
    } else {
      var c, rest := cs[0], EncodedAll(cs[1..]);
      var text, next := before + Encoded(c) + rest, before + Encoded(c);
      StepDecodes(before, c, rest);
      CodepointsStep(text, |before|, |Encoded(c)|, c);
      DecodesWhatWasEncoded(next, cs[1..]);
      assert before + EncodedAll(cs) == text;
      assert [c] + cs[1..] == cs;
    }
  }

  lemma StepStaysInPrefix(text: seq<Byte>, i: nat, n: nat)
    requires i < |text| && i + StepLength(text, i) <= n <= |text|
    ensures StepLength(text[..n], i) == StepLength(text, i) && StepCodepoint(text[..n], i) == StepCodepoint(text, i)
  {}

  /** The first `k` codepoints are exactly what the first `Offsets[k]` bytes decode to. */
  lemma {:induction false} PrefixDecodesAlone(text: seq<Byte>, i: nat, k: nat)
    requires i <= |text| && k <= |Codepoints(text, i)|
    ensures var n := Offsets(text, i)[k];
            i <= n <= |text| && (k > 0 ==> i < n) && Codepoints(text[..n], i) == Codepoints(text, i)[..k]
    decreases |text| - i
  {
    hide Utf8Length, DecodeCodepoint;
    if k > 0 {
      var next := i + StepLength(text, i);
      PrefixDecodesAlone(text, next, k - 1);
      var n := Offsets(text, next)[k - 1];
      StepStaysInPrefix(text, i, n);
      assert Codepoints(text, i)[..k] == [StepCodepoint(text, i)] + Codepoints(text, next)[..k - 1];
      assert Codepoints(text[..n], i) == [StepCodepoint(text[..n], i)] + Codepoints(text[..n], next);
    }
  }

  /** The table runs from the start to the end of the text in steps of one to four bytes. */
  lemma {:induction false} OffsetsStepForward(text: seq<Byte>, i: nat, k: nat)
    requires i <= |text| && k < |Codepoints(text, i)|
    ensures var offsets := Offsets(text, i);
            offsets[k] < offsets[k + 1] <= offsets[k] + 4 && offsets[|offsets| - 1] == |text|
    decreases |text| - i
  {
    hide StepLength, StepCodepoint;
    assert i < |text|;
    var next := i + StepLength(text, i);
    var offsets, rest := Offsets(text, i), Offsets(text, next);
    assert offsets == [i] + rest;
    if k > 0 {
      OffsetsStepForward(text, next, k - 1);
    } else if next < |text| {
      OffsetsStepForward(text, next, 0);
    }
  }

  predicate Ascii(text: seq<Byte>) {
    forall k: nat :: k < |text| ==> text[k] < 0x80
  }

  lemma AsciiStep(text: seq<Byte>, i: nat)
    requires i < |text| && Ascii(text)
    ensures StepLength(text, i) == 1 && StepCodepoint(text, i) == text[i]
  {
  }

  lemma {:induction false} AsciiCodepoints(text: seq<Byte>, i: nat)
    requires i <= |text| && Ascii(text)
    ensures Codepoints(text, i) == text[i..]
    decreases |text| - i
  {
    hide StepLength, StepCodepoint, Ascii;
    if i < |text| {
      AsciiStep(text, i);
      AsciiCodepoints(text, i + 1);
      assert text[i..] == [text[i]] + text[i + 1..];
    }
  }

  lemma {:induction false} AsciiOffsets(text: seq<Byte>, i: nat, k: nat)
    requires i <= |text| && Ascii(text) && k <= |text| - i
    ensures k < |Offsets(text, i)| && Offsets(text, i)[k] == i + k
    decreases |text| - i
  {
    hide StepLength, StepCodepoint, Ascii, Codepoints;
    if k > 0 {
      AsciiStep(text, i);
      AsciiOffsets(text, i + 1, k - 1);
      assert Offsets(text, i) == [i] + Offsets(text, i + 1);
    }
  }

  /** Over ASCII, codepoints are bytes. */
  lemma AsciiDecodesToItself(text: seq<Byte>, i: nat)
    requires i <= |text| && Ascii(text)
    ensures Codepoints(text, i) == text[i..]
    ensures forall k: nat :: k <= |text| - i ==> Offsets(text, i)[k] == i + k
  {
    hide Ascii, Codepoints, Offsets;
    AsciiCodepoints(text, i);
    forall k: nat | k <= |text| - i
      ensures Offsets(text, i)[k] == i + k
    {
      AsciiOffsets(text, i, k);
    }
  }
}
