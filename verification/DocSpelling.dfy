/** What a documentation comment's tokens and elements spell: the comment's lines, but for whitespace. */
module DocSpelling {
  import opened Options
  import opened DocTokens
  import opened DocParser

  // Characters --------------------------------------------------------------------------

  /** A space, or one of the five control characters from tab to carriage return. */
  predicate White(c: char) { c as int == 32 || 9 <= c as int <= 13 }

  predicate AllWhite(s: string) { forall c <- s :: White(c) }

  predicate Letter(c: char) { 65 <= c as int <= 90 || 97 <= c as int <= 122 }

  predicate LetterOrDigit(c: char) { Letter(c) || 48 <= c as int <= 57 }

  lemma CharactersAre(c: char)
    ensures IsSpace(c) <==> White(c)
    ensures IsAlpha(c) <==> Letter(c)
    ensures IsAlnum(c) <==> LetterOrDigit(c)
  {
  }

  /** The text without its whitespace. */
  function Squeezed(s: string): string {
    if s == "" then "" else (if White(s[0]) then "" else [s[0]]) + Squeezed(s[1..])
  }

  lemma {:induction false} SqueezedJoin(a: string, b: string)
    ensures Squeezed(a + b) == Squeezed(a) + Squeezed(b)
  {
    hide White;
    if a == "" {
      assert a + b == b && Squeezed(a) + Squeezed(b) == Squeezed(b);
    } else {
      assert (a + b)[1..] == a[1..] + b;
      SqueezedJoin(a[1..], b);
      var head := if White(a[0]) then "" else [a[0]];
      assert head + Squeezed(a[1..]) + Squeezed(b) == head + (Squeezed(a[1..]) + Squeezed(b));
    }
  }

  lemma {:induction false} WhiteSqueezes(s: string)
    requires AllWhite(s)
    ensures Squeezed(s) == ""
  {
    if s != "" {
      WhiteSqueezes(s[1..]);
    }
  }

  /** The stretch a scan over whitespace passes is white. */
  lemma SkippedIsWhite(line: string, i: nat)
    requires i <= |line|
    ensures var j := PastAll(line, i, IsSpace); i <= j <= |line| && AllWhite(line[i..j]) && (j < |line| ==> !White(line[j]))
  {
    var j := PastAll(line, i, IsSpace);
    forall k: nat | k < |line[i..j]|
      ensures White(line[i..j][k])
    {
      assert IsSpace(line[i + k]);
    }
  }

  // What tokens write --------------------------------------------------------------------

  /** Text and block tags as they are, an inline tag with its text in braces, nothing for a break. */
  function Written(tokens: seq<Token>): string {
    if tokens == [] then ""
    else
      match tokens[0]
      case Text(content) => content + Written(tokens[1..])
      case Tag(content) => content + Written(tokens[1..])
      case InlineTag(name) =>
        if |tokens| > 1 && tokens[1].Text? then ("{" + name + tokens[1].content + "}") + Written(tokens[2..]) else name + Written(tokens[1..])
      case Break => Written(tokens[1..])
  }

  /** Inline tags are followed by their text. */
  predicate Paired(tokens: seq<Token>) {
    forall i: nat :: i < |tokens| && tokens[i].InlineTag? ==> i + 1 < |tokens| && tokens[i + 1].Text?
  }

  lemma Associate(a: string, b: string, c: string)
    ensures a + b + c == a + (b + c)
  {
  }

  lemma {:induction false} WrittenJoin(a: seq<Token>, b: seq<Token>)
    requires Paired(a)
    ensures Written(a + b) == Written(a) + Written(b)
    decreases |a|
  {
    if a == [] {
      assert a + b == b && Written(a) + Written(b) == Written(b);
    } else {
      assert (a + b)[0] == a[0] && (a + b)[1..] == a[1..] + b;
      if a[0].InlineTag? {
        assert a[1].Text? && (a + b)[1] == a[1] && (a + b)[2..] == a[2..] + b;
        WrittenJoin(a[2..], b);
        Associate("{" + a[0].content + a[1].content + "}", Written(a[2..]), Written(b));
      } else {
        WrittenJoin(a[1..], b);
        Associate(if a[0].Break? then "" else a[0].content, Written(a[1..]), Written(b));
        assert a[0].Break? ==> "" + Written(a[1..]) == Written(a[1..]) && "" + Written(a + b) == Written(a + b);
      }
    }
  }

  // One fragment ----------------------------------------------------------------------------

  lemma TextWritten(content: string)
    ensures Written([Text(content)]) == content
  {
    assert Written([Text(content)]) == content + Written([]);
  }

  lemma PairWritten(name: string, content: string)
    ensures Written([InlineTag(name), Text(content)]) == "{" + name + content + "}"
    ensures Paired([InlineTag(name), Text(content)])
  {
    assert [InlineTag(name), Text(content)][2..] == [];
  }

  /** Only whitespace lies between an inline tag's name and its content. */
  lemma GapSqueezes(m: Match)
    requires AllWhite(m.gap)
    ensures Squeezed("{" + m.name + m.gap + m.content + "}") == Squeezed("{" + m.name + m.content + "}")
  {
    WhiteSqueezes(m.gap);
    hide Squeezed;
    SqueezedJoin("{" + m.name + m.gap + m.content, "}");
    SqueezedJoin("{" + m.name + m.gap, m.content);
    SqueezedJoin("{" + m.name, m.gap);
    SqueezedJoin("{" + m.name + m.content, "}");
    SqueezedJoin("{" + m.name, m.content);
  }

  lemma LeadWritten(f: string, last: nat, begin: nat)
    requires last <= begin <= |f|
    ensures var lead := if last < begin then [Text(f[last..begin])] else []; Written(lead) == f[last..begin] && Paired(lead)
  {
    TextWritten(f[last..begin]);
  }

  lemma TagHasWhiteGap(f: string, m: Match)
    requires TagAt(f, m.begin) == Some(m)
    ensures AllWhite(m.gap)
  {
    TagIsSpelled(f, m.begin);
    forall c | c in m.gap
      ensures White(c)
    {
      CharactersAre(c);
    }
  }

  lemma {:induction false} BetweenWrites(f: string, ms: seq<Match>, last: nat)
    requires last <= |f| && Apart(ms) && AllLocated(f, last, ms)
    ensures Squeezed(Written(TokensBetween(f, ms, last))) == Squeezed(Spelling(f, ms, last))
    decreases |ms|
  {
    hide Squeezed, TagAt;
    if ms == [] {
      LeadWritten(f, last, |f|);
      assert f[last..|f|] == f[last..];
    } else {
      var m := ms[0];
      LaterMatches(f, ms, last);
      FirstMatchUnfolds(f, ms, last);
      BetweenWrites(f, ms[1..], m.end);
      TagHasWhiteGap(f, m);
      hide TokensBetween, Spelling, Apart, AllLocated, Written, Paired;
      var lead := if last < m.begin then [Text(f[last..m.begin])] else [];
      var pair, rest := [InlineTag(m.name), Text(m.content)], TokensBetween(f, ms[1..], m.end);
      LeadWritten(f, last, m.begin);
      PairWritten(m.name, m.content);
      assert lead + (pair + rest) == TokensBetween(f, ms, last);
      WrittenJoin(lead, pair + rest);
      WrittenJoin(pair, rest);
      GapSqueezes(m);
      SqueezedJoin(f[last..m.begin], Written(pair) + Written(rest));
      SqueezedJoin(Written(pair), Written(rest));
      var tag, later := "{" + m.name + m.gap + m.content + "}", Spelling(f, ms[1..], m.end);
      SqueezedJoin(f[last..m.begin], tag + later);
      SqueezedJoin(tag, later);
    }
  }

  /** Nothing but whitespace of a fragment is missing from its tokens. */
  lemma InlineWrites(f: string)
    ensures Squeezed(Written(InlineTokens(f))) == Squeezed(f) && Paired(InlineTokens(f))
  {
    hide TagAt, Squeezed;
    var ms := TagsFrom(f, 0);
    TagsAreDisjoint(f, 0);
    InlineIsShaped(f);
    if ms == [] {
      TextWritten(f);
    } else {
      hide Written, TokensBetween, Spelling;
      BetweenWrites(f, ms, 0);
      MatchesSpellTheText(f, ms, 0);
      assert f[0..] == f;
    }
  }

  /** Where the passed stretch is known to end. */
  lemma ScanEnds(s: string, i: nat, j: nat, ofKind: char -> bool)
    requires i <= j <= |s| && (forall k: nat :: i <= k < j ==> ofKind(s[k])) && (j < |s| ==> !ofKind(s[j]))
    ensures PastAll(s, i, ofKind) == j
  {
  }

  /** What an inline tag looks like. */
  ghost predicate TagParts(name: string, gap: string, content: string) {
    && |name| >= 2 && name[0] == '@' && Letter(name[1]) && (forall i: nat :: 2 <= i < |name| ==> LetterOrDigit(name[i]))
    && AllWhite(gap) && (forall c <- content :: c != '}' && c != '\n' && c != '\r')
    && (gap == "" && content != "" ==> !LetterOrDigit(content[0])) && (content != "" ==> !White(content[0]))
  }

  lemma PartsAt(before: string, name: string, gap: string, content: string, after: string)
    ensures var f, p := before + ("{" + name + gap + content + "}") + after, |before|;
            var a, b, c := p + 1 + |name|, p + 1 + |name| + |gap|, p + 1 + |name| + |gap| + |content|;
            && |f| > c && f[p] == '{' && f[c] == '}'
            && f[p + 1..a] == name && f[a..b] == gap && f[b..c] == content
  {
    var f, p := before + ("{" + name + gap + content + "}") + after, |before|;
    assert f == before + "{" + name + gap + content + "}" + after;
  }

  lemma NameEnds(f: string, p: nat, name: string, gap: string, content: string)
    requires TagParts(name, gap, content)
    requires var a, b, c := p + 1 + |name|, p + 1 + |name| + |gap|, p + 1 + |name| + |gap| + |content|;
             |f| > c && f[c] == '}' && f[p + 1..a] == name && f[a..b] == gap && f[b..c] == content
    ensures PastAll(f, p + 3, IsAlnum) == p + 1 + |name|
  {
    var a := p + 1 + |name|;
    forall k: nat | p + 3 <= k < a
      ensures IsAlnum(f[k])
    {
      assert f[k] == f[p + 1..a][k - p - 1];
      CharactersAre(f[k]);
    }
    var next := if gap != "" then gap[0] else if content != "" then content[0] else '}';
    assert f[a] == next by {
      if gap != "" {
        assert f[a..a + |gap|][0] == gap[0];
      } else if content != "" {
        assert f[a..a + |content|][0] == content[0];
      }
    }
    assert gap != "" ==> gap[0] in gap;
    assert !LetterOrDigit(next);
    CharactersAre(next);
    ScanEnds(f, p + 3, a, IsAlnum);
  }

  lemma GapEnds(f: string, a: nat, b: nat, gap: string, next: char)
    requires a <= b < |f| && f[a..b] == gap && AllWhite(gap) && f[b] == next && !White(next)
    ensures PastAll(f, a, IsSpace) == b
  {
    forall k: nat | a <= k < b
      ensures IsSpace(f[k])
    {
      assert f[k] == f[a..b][k - a];
      CharactersAre(f[k]);
    }
    CharactersAre(next);
    ScanEnds(f, a, b, IsSpace);
  }

  lemma ContentEnds(f: string, b: nat, c: nat, content: string)
    requires b <= c < |f| && f[b..c] == content && f[c] == '}' && forall x <- content :: x != '}' && x != '\n' && x != '\r'
    ensures PastAll(f, b, IsContent) == c
  {
    forall k: nat | b <= k < c
      ensures IsContent(f[k])
    {
      assert f[k] == f[b..c][k - b] && content[k - b] in content;
    }
    ScanEnds(f, b, c, IsContent);
  }

  lemma TagScanned(f: string, p: nat, a: nat, b: nat, c: nat)
    requires p + 3 <= a <= b <= c < |f| && f[p] == '{' && f[p + 1] == '@' && IsAlpha(f[p + 2]) && f[c] == '}'
    requires PastAll(f, p + 3, IsAlnum) == a && PastAll(f, a, IsSpace) == b && PastAll(f, b, IsContent) == c
    ensures TagAt(f, p) == Some(Match(p, c + 1, f[p + 1..a], f[a..b], f[b..c]))
  {
    hide PastAll, IsSpace, IsAlnum, IsContent, IsAlpha;
  }

  lemma TagFromParts(f: string, p: nat, name: string, gap: string, content: string)
    requires TagParts(name, gap, content)
    requires var a, b, c := p + 1 + |name|, p + 1 + |name| + |gap|, p + 1 + |name| + |gap| + |content|;
             |f| > c && f[p] == '{' && f[c] == '}' && f[p + 1..a] == name && f[a..b] == gap && f[b..c] == content
    ensures TagAt(f, p) == Some(Match(p, p + 2 + |name| + |gap| + |content|, name, gap, content))
  {
    var a, b, c := p + 1 + |name|, p + 1 + |name| + |gap|, p + 1 + |name| + |gap| + |content|;
    assert f[p + 1..a][0] == f[p + 1] == '@' && f[p + 1..a][1] == f[p + 2] == name[1];
    assert content != "" ==> f[b] == f[b..c][0] == content[0];
    CharactersAre(name[1]);
    NameEnds(f, p, name, gap, content);
    GapEnds(f, a, b, gap, f[b]);
    ContentEnds(f, b, c, content);
    hide TagAt, TagParts, PastAll;
    TagScanned(f, p, a, b, c);
  }

  /** Whatever is spelled like an inline tag is matched as one, with just these parts. */
  lemma TagIsFound(before: string, name: string, gap: string, content: string, after: string)
    requires TagParts(name, gap, content)
    ensures var tag := "{" + name + gap + content + "}";
            TagAt(before + tag + after, |before|) == Some(Match(|before|, |before| + |tag|, name, gap, content))
  {
    PartsAt(before, name, gap, content, after);
    hide TagAt, TagParts;
    TagFromParts(before + ("{" + name + gap + content + "}") + after, |before|, name, gap, content);
  }

  // One line ------------------------------------------------------------------------------------

  /** A block tag: its sign, alone or with a letter and letters and digits after it. */
  predicate BlockTagName(tag: string) {
    && tag != "" && tag[0] == '@'
    && (|tag| > 1 ==> Letter(tag[1])) && (forall i: nat :: 2 <= i < |tag| ==> LetterOrDigit(tag[i]))
  }

  /** The rest does not go on with the name. */
  predicate EndsName(tag: string, rest: string) {
    rest != "" ==> if |tag| > 1 then !LetterOrDigit(rest[0]) else !Letter(rest[0])
  }

  lemma SignIsSeen(line: string, index: nat, i: nat)
    requires index + i < |line| && AllWhite(line[index..index + i]) && line[index + i] == '@'
    ensures BlockTagEnd(line, index).Some?
  {
    forall k: nat | index <= k < index + i
      ensures IsSpace(line[k])
    {
      assert line[k] == line[index..index + i][k - index];
      CharactersAre(line[k]);
    }
    ScanEnds(line, index, index + i, IsSpace);
  }

  lemma BlockTagShape(line: string, index: nat)
    requires index <= |line| && BlockTagEnd(line, index).Some?
    ensures var at, end := PastAll(line, index, IsSpace), BlockTagEnd(line, index).value;
            index <= at < end <= |line| && BlockTagName(line[at..end]) && EndsName(line[at..end], line[end..])
  {
    var at, end := PastAll(line, index, IsSpace), BlockTagEnd(line, index).value;
    if at + 1 < |line| {
      CharactersAre(line[at + 1]);
    }
    if end < |line| {
      CharactersAre(line[end]);
    }
    forall i: nat | 2 <= i < end - at
      ensures LetterOrDigit(line[at..end][i])
    {
      assert IsAlnum(line[at + i]);
      CharactersAre(line[at + i]);
    }
  }

  lemma TaggedTokens(line: string, index: nat)
    requires BlockTagEnd(line, index).Some?
    ensures var at, end := PastAll(line, index, IsSpace), BlockTagEnd(line, index).value;
            var begin := PastAll(line, end, IsSpace);
            at <= end <= |line| && LineTokens(line, index) == [Tag(line[at..end])] + if begin < |line| then InlineTokens(line[begin..]) else []
  {
    hide PastAll, InlineTokens, IsAlpha, IsAlnum, IsSpace;
  }

  lemma FourSlices(line: string, index: nat, at: nat, end: nat, begin: nat)
    requires index <= at <= end <= begin <= |line|
    ensures line[index..] == line[index..at] + line[at..end] + line[end..begin] + line[begin..]
    ensures line[end..] == line[end..begin] + line[begin..]
  {
    assert line[index..end] == line[index..at] + line[at..end];
    assert line[index..begin] == line[index..end] + line[end..begin];
    assert line[index..] == line[index..begin] + line[begin..];
  }

  lemma TaggedLineSplits(line: string, index: nat) returns (lead: string, tag: string, gap: string, text: string)
    requires index <= |line| && BlockTagEnd(line, index).Some?
    ensures line[index..] == lead + tag + gap + text && AllWhite(lead) && AllWhite(gap)
    ensures BlockTagName(tag) && EndsName(tag, gap + text) && (text != "" ==> !White(text[0]))
    ensures LineTokens(line, index) == [Tag(tag)] + (if text == "" then [] else InlineTokens(text))
  {
    hide PastAll, InlineTokens, LineTokens, BlockTagEnd, BlockTagName, EndsName, AllWhite, White;
    SkippedIsWhite(line, index);
    BlockTagShape(line, index);
    TaggedTokens(line, index);
    var at, end := PastAll(line, index, IsSpace), BlockTagEnd(line, index).value;
    SkippedIsWhite(line, end);
    var begin := PastAll(line, end, IsSpace);
    FourSlices(line, index, at, end, begin);
    lead, tag, gap, text := line[index..at], line[at..end], line[end..begin], line[begin..];
    assert begin < |line| ==> text[0] == line[begin];
  }

  lemma PlainLineHasNoSign(line: string, index: nat, i: nat)
    requires index <= |line| && BlockTagEnd(line, index).None? && i < |line| - index && AllWhite(line[index..][..i])
    ensures line[index..][i] != '@'
  {
    assert line[index..][..i] == line[index..index + i];
    if line[index + i] == '@' {
      SignIsSeen(line, index, i);
    }
  }

  /** How a line that is not blank reads from its content on: whitespace and a block tag with whitespace behind it,
      if its first visible character is the sign, and then the text its inline tokens stand for. */
  lemma LineSplits(line: string, index: nat) returns (lead: string, tag: string, gap: string, text: string)
    requires index <= |line| && !IsBlank(line, index)
    ensures line[index..] == lead + tag + gap + text && AllWhite(lead) && AllWhite(gap)
    ensures tag != "" ==> BlockTagName(tag) && EndsName(tag, gap + text) && (text != "" ==> !White(text[0]))
    ensures tag == "" ==> lead == "" && gap == "" && (forall i: nat :: i < |text| && AllWhite(text[..i]) ==> text[i] != '@')
    ensures LineTokens(line, index) ==
            (if tag != "" then [Tag(tag)] else []) + (if tag != "" && text == "" then [] else InlineTokens(text))
  {
    assert index < |line|;
    if BlockTagEnd(line, index).Some? {
      hide LineTokens, InlineTokens, EndsName, IsBlank, BlockTagEnd, AllWhite;
      lead, tag, gap, text := TaggedLineSplits(line, index);
    } else {
      hide InlineTokens, IsBlank;
      lead, tag, gap, text := "", "", "", line[index..];
      forall i: nat | i < |text| && AllWhite(text[..i])
        ensures text[i] != '@'
      {
        PlainLineHasNoSign(line, index, i);
      }
      assert [] + InlineTokens(text) == InlineTokens(text);
    }
  }

  lemma PartsSqueeze(lead: string, tag: string, gap: string, text: string)
    requires AllWhite(lead) && AllWhite(gap)
    ensures Squeezed(lead + tag + gap + text) == Squeezed(tag) + Squeezed(text)
  {
    hide Squeezed;
    SqueezedJoin(lead + tag + gap, text);
    SqueezedJoin(lead + tag, gap);
    SqueezedJoin(lead, tag);
    WhiteSqueezes(lead);
    WhiteSqueezes(gap);
    assert "" + Squeezed(tag) + "" == Squeezed(tag);
  }

  lemma HeadWrites(tag: string, rest: seq<Token>)
    ensures var head := if tag != "" then [Tag(tag)] else []; Written(head + rest) == tag + Written(rest)
  {
    if tag != "" {
      assert ([Tag(tag)] + rest)[1..] == rest;
    } else {
      assert [] + rest == rest && "" + Written(rest) == Written(rest);
    }
  }

  lemma RestWrites(text: string, dropped: bool)
    requires dropped ==> text == ""
    ensures Squeezed(Written(if dropped then [] else InlineTokens(text))) == Squeezed(text)
  {
    InlineWrites(text);
    hide InlineTokens, Squeezed;
  }

  /** A line's tokens write its content, but for whitespace. */
  lemma LineWrites(line: string, index: nat)
    requires index <= |line| && !IsBlank(line, index)
    ensures Squeezed(Written(LineTokens(line, index))) == Squeezed(line[index..]) && Paired(LineTokens(line, index))
  {
    LineIsShaped(line, index);
    assert Paired(LineTokens(line, index));
    hide PastAll, IsBlank, BlockTagEnd, LineTokens, InlineTokens, Squeezed, BlockTagName;
    hide EndsName, Shaped, Paired, Written, White, AllWhite;
    var lead, tag, gap, text := LineSplits(line, index);
    var rest := if tag != "" && text == "" then [] else InlineTokens(text);
    RestWrites(text, tag != "" && text == "");
    HeadWrites(tag, rest);
    SqueezedJoin(tag, Written(rest));
    PartsSqueeze(lead, tag, gap, text);
  }

  // Markers ---------------------------------------------------------------------------------------

  lemma TextAtPlace(before: string, marker: string, after: string)
    ensures OccursAt(before + marker + after, |before|, marker)
  {
    assert (before + marker + after)[|before|..|before| + |marker|] == marker;
  }

  /** A marker that follows leading whitespace is passed, and the whitespace with it. */
  lemma PrefixIsCut(lead: string, marker: string, rest: string)
    requires AllWhite(lead) && marker != "" && !White(marker[0])
    ensures PastPrefix(lead + marker + rest, marker) == |lead| + |marker|
  {
    var line := lead + marker + rest;
    forall k: nat | k < |lead|
      ensures IsSpace(line[k])
    {
      assert line[k] == lead[k];
      CharactersAre(line[k]);
    }
    CharactersAre(marker[0]);
    assert line[|lead|] == marker[0];
    ScanEnds(line, 0, |lead|, IsSpace);
    TextAtPlace(lead, marker, rest);
  }

  /** A line that does not begin with the marker after whitespace keeps all of it. */
  lemma OtherLinesAreKept(line: string, marker: string)
    requires forall p: nat :: p <= |line| && AllWhite(line[..p]) ==> !OccursAt(line, p, marker)
    ensures PastPrefix(line, marker) == 0
  {
    SkippedIsWhite(line, 0);
    assert line[0..PastAll(line, 0, IsSpace)] == line[..PastAll(line, 0, IsSpace)];
  }

  lemma TrailScanned(s: string, n: nat, r: nat)
    requires r <= n <= |s| && (forall k: nat :: r <= k < n ==> IsSpace(s[k])) && (r > 0 ==> !IsSpace(s[r - 1]))
    ensures WithoutTrailing(s, n, IsSpace) == r
  {
  }

  lemma TrailEnds(s: string, n: nat, r: nat)
    requires r <= n <= |s| && (forall k: nat :: r <= k < n ==> White(s[k])) && (r > 0 ==> !White(s[r - 1]))
    ensures WithoutTrailing(s, n, IsSpace) == r
  {
    forall k: nat | r <= k < n
      ensures IsSpace(s[k])
    {
      CharactersAre(s[k]);
    }
    if r > 0 {
      CharactersAre(s[r - 1]);
    }
    TrailScanned(s, n, r);
  }

  lemma SuffixAtPlace(line: string, r: nat, a: nat, b: nat, marker: string)
    requires r <= a < b <= |line| && |marker| == b - a && line[a..b] == marker && !White(marker[|marker| - 1])
    requires AllWhite(line[r..a]) && AllWhite(line[b..]) && (r > 0 ==> !White(line[r - 1]))
    ensures WithoutSuffix(line, marker) == line[..r]
  {
    forall k: nat | b <= k < |line|
      ensures White(line[k])
    {
      assert line[k] == line[b..][k - b];
    }
    assert line[b - 1] == line[a..b][|marker| - 1];
    TrailEnds(line, |line|, b);
    forall k: nat | r <= k < a
      ensures White(line[k])
    {
      assert line[k] == line[r..a][k - r];
    }
    TrailEnds(line, a, r);
    hide White, WithoutTrailing;
  }

  lemma FourParts(body: string, gap: string, marker: string, trail: string)
    ensures var line := body + gap + marker + trail;
            var r, a, b := |body|, |body| + |gap|, |body| + |gap| + |marker|;
            && |line| == b + |trail| && line[..r] == body && line[r..a] == gap && line[a..b] == marker && line[b..] == trail
            && (body != "" ==> line[r - 1] == body[r - 1])
  {
    var line := body + gap + marker + trail;
    assert body + gap == line[..|body| + |gap|];
  }

  /** A marker at the end of a line goes, with the whitespace on both sides of it. */
  lemma SuffixIsCut(body: string, gap: string, marker: string, trail: string)
    requires AllWhite(gap) && AllWhite(trail) && (body != "" ==> !White(body[|body| - 1]))
    requires marker != "" && !White(marker[|marker| - 1])
    ensures WithoutSuffix(body + gap + marker + trail, marker) == body
  {
    FourParts(body, gap, marker, trail);
    hide White, AllWhite, WithoutSuffix;
    SuffixAtPlace(body + gap + marker + trail, |body|, |body| + |gap|, |body| + |gap| + |marker|, marker);
  }

  /** A line that does not end in the marker before whitespace keeps all of it. */
  lemma OtherEndsAreKept(line: string, marker: string)
    requires forall n: nat :: |marker| <= n <= |line| && AllWhite(line[n..]) ==> !OccursAt(line, n - |marker|, marker)
    ensures WithoutSuffix(line, marker) == line
  {
    var n := WithoutTrailing(line, |line|, IsSpace);
    forall k: nat | k < |line[n..]|
      ensures White(line[n..][k])
    {
      assert IsSpace(line[n + k]);
    }
  }

  // All lines -----------------------------------------------------------------------------------------

  /** What is left of a line without its markers. */
  function ContentOf(lines: seq<string>, i: nat, markers: Markers): string
    requires i < |lines|
  {
    var (line, index) := Cut(lines, i, markers);
    if index <= |line| then line[index..] else ""
  }

  /** There is nothing to be seen on the line. */
  predicate Empty(lines: seq<string>, i: nat, markers: Markers)
    requires i < |lines|
  {
    Squeezed(ContentOf(lines, i, markers)) == ""
  }

  /** The tokens of one line: what is to be seen of it, or a break for an empty line if anything was seen before it. */
  ghost predicate TokensOfLine(lines: seq<string>, i: nat, markers: Markers, tokens: seq<Token>)
    requires i < |lines|
  {
    if Empty(lines, i, markers) then tokens == if forall j: nat :: j < i ==> Empty(lines, j, markers) then [] else [Break]
    else
      && Squeezed(Written(tokens)) == Squeezed(ContentOf(lines, i, markers)) && Paired(tokens)
      && forall t <- tokens :: !t.Break?
  }

  lemma {:induction false} VisibleIsSqueezed(s: string, i: nat)
    requires i < |s| && !White(s[i])
    ensures Squeezed(s) != ""
  {
    if i > 0 {
      VisibleIsSqueezed(s[1..], i - 1);
    }
  }

  lemma EmptyIsBlank(lines: seq<string>, i: nat, markers: Markers)
    requires i < |lines|
    ensures var (line, index) := Cut(lines, i, markers); IsBlank(line, index) <==> Empty(lines, i, markers)
  {
    var (line, index) := Cut(lines, i, markers);
    hide Cut, Squeezed, White;
    if index <= |line| {
      SkippedIsWhite(line, index);
      var at := PastAll(line, index, IsSpace);
      if at < |line| {
        VisibleIsSqueezed(line[index..], at - index);
      } else {
        assert line[index..at] == line[index..];
        WhiteSqueezes(line[index..]);
      }
    } else {
      WhiteSqueezes("");
    }
  }

  function Joined(chunks: seq<seq<Token>>): seq<Token> {
    if chunks == [] then [] else Joined(chunks[..|chunks| - 1]) + chunks[|chunks| - 1]
  }

  ghost predicate ByLine(lines: seq<string>, markers: Markers, chunks: seq<seq<Token>>) {
    |chunks| <= |lines| && forall i: nat :: i < |chunks| ==> TokensOfLine(lines, i, markers, chunks[i])
  }

  lemma LastLine(lines: seq<string>, markers: Markers, i: nat) returns (chunk: seq<Token>)
    requires i < |lines| && (TokensOf(lines, markers, i) == [] <==> forall j: nat :: j < i ==> Empty(lines, j, markers))
    ensures TokensOfLine(lines, i, markers, chunk) && TokensOf(lines, markers, i + 1) == TokensOf(lines, markers, i) + chunk
    ensures chunk == [] ==> Empty(lines, i, markers)
    ensures Empty(lines, i, markers) && TokensOf(lines, markers, i) == [] ==> chunk == []
  {
    EmptyIsBlank(lines, i, markers);
    var (line, index) := Cut(lines, i, markers);
    if IsBlank(line, index) {
      hide Cut, IsBlank, LineTokens, Empty;
      chunk := if TokensOf(lines, markers, i) == [] then [] else [Break];
    } else {
      assert index <= |line| && ContentOf(lines, i, markers) == line[index..];
      LineIsShaped(line, index);
      hide Cut, IsBlank, LineTokens, Empty, Squeezed, Written, ContentOf;
      LineWrites(line, index);
      chunk := LineTokens(line, index);
    }
  }

  /** The tokens of the first `k` lines, line by line. */
  lemma {:induction false} TokensByLine(lines: seq<string>, markers: Markers, k: nat) returns (chunks: seq<seq<Token>>)
    requires k <= |lines|
    ensures |chunks| == k && ByLine(lines, markers, chunks) && Joined(chunks) == TokensOf(lines, markers, k)
    ensures TokensOf(lines, markers, k) == [] <==> forall j: nat :: j < k ==> Empty(lines, j, markers)
  {
    hide Cut, IsBlank, LineTokens, Empty, Squeezed, Written, ContentOf;
    if k == 0 {
      chunks := [];
    } else {
      var before := TokensByLine(lines, markers, k - 1);
      var chunk := LastLine(lines, markers, k - 1);
      chunks := before + [chunk];
      assert chunks[..|chunks| - 1] == before;
    }
  }

  /** What is to be seen of the first `k` lines. */
  function Seen(lines: seq<string>, markers: Markers, k: nat): string
    requires k <= |lines|
  {
    if k == 0 then "" else Seen(lines, markers, k - 1) + Squeezed(ContentOf(lines, k - 1, markers))
  }

  lemma ChunkIsSeen(lines: seq<string>, i: nat, markers: Markers, chunk: seq<Token>)
    requires i < |lines| && TokensOfLine(lines, i, markers, chunk)
    ensures Squeezed(Written(chunk)) == Squeezed(ContentOf(lines, i, markers)) && Paired(chunk)
  {
    if Empty(lines, i, markers) {
      assert Written(chunk) == "" by { assert Written([Break]) == Written([]); }
    }
  }

  lemma PairedJoin(a: seq<Token>, b: seq<Token>)
    requires Paired(a) && Paired(b)
    ensures Paired(a + b)
  {
    var both := a + b;
    forall i: nat | i < |both| && both[i].InlineTag?
      ensures i + 1 < |both| && both[i + 1].Text?
    {
      if i < |a| {
        assert a[i].InlineTag? && both[i + 1] == a[i + 1];
      } else {
        assert b[i - |a|].InlineTag? && both[i + 1] == b[i - |a| + 1];
      }
    }
  }

  lemma {:induction false} JoinedIsSeen(lines: seq<string>, markers: Markers, chunks: seq<seq<Token>>)
    requires ByLine(lines, markers, chunks)
    ensures Squeezed(Written(Joined(chunks))) == Seen(lines, markers, |chunks|) && Paired(Joined(chunks))
  {
    hide Squeezed, ContentOf;
    if chunks == [] {
      WhiteSqueezes("");
    } else {
      var n := |chunks| - 1;
      JoinedIsSeen(lines, markers, chunks[..n]);
      ChunkIsSeen(lines, n, markers, chunks[n]);
      hide Written, Paired, TokensOfLine;
      WrittenJoin(Joined(chunks[..n]), chunks[n]);
      SqueezedJoin(Written(Joined(chunks[..n])), Written(chunks[n]));
      PairedJoin(Joined(chunks[..n]), chunks[n]);
    }
  }

  lemma DroppedBreakWritesNothing(all: seq<Token>)
    requires Paired(all)
    ensures all != [] && all[|all| - 1] == Break ==> Written(all[..|all| - 1]) == Written(all) && Paired(all[..|all| - 1])
  {
    if all != [] && all[|all| - 1] == Break {
      var most := all[..|all| - 1];
      assert all == most + [Break];
      forall i: nat | i < |most| && most[i].InlineTag?
        ensures i + 1 < |most| && most[i + 1].Text?
      {
        assert all[i].InlineTag? && all[i + 1].Text?;
      }
      WrittenJoin(most, [Break]);
      assert Written([Break]) == Written([]) == "";
    }
  }

  /** The tokens write what is to be seen of the lines. */
  lemma TokensWriteTheLines(lines: seq<string>, markers: Markers)
    ensures Squeezed(Written(Tokens(lines, markers))) == Seen(lines, markers, |lines|) && Paired(Tokens(lines, markers))
  {
    hide Squeezed, Written, Paired, TokensOf;
    var chunks := TokensByLine(lines, markers, |lines|);
    JoinedIsSeen(lines, markers, chunks);
    DroppedBreakWritesNothing(TokensOf(lines, markers, |lines|));
  }

  // The parsed comment ------------------------------------------------------------------------------------

  /** Empty text for a break writes nothing either. */
  lemma {:induction false} SliceWrites(tokens: seq<Token>, i: nat)
    requires i <= |tokens| && Paired(tokens)
    ensures Written(Slice(tokens, i, |tokens|)) == Written(tokens[i..])
    decreases |tokens| - i
  {
    if i < |tokens| {
      SliceOne(tokens, i);
      SlicesJoin(tokens, i, i + 1, |tokens|);
      SliceWrites(tokens, i + 1);
      assert tokens[i..][1..] == tokens[i + 1..];
      if tokens[i].InlineTag? {
        SliceOne(tokens, i + 1);
        SlicesJoin(tokens, i + 1, i + 2, |tokens|);
        SliceWrites(tokens, i + 2);
        assert tokens[i..][2..] == tokens[i + 2..];
        var s := Slice(tokens, i, |tokens|);
        assert s[2..] == Slice(tokens, i + 2, |tokens|);
      } else {
        assert Slice(tokens, i, |tokens|)[1..] == Slice(tokens, i + 1, |tokens|);
      }
    }
  }

  /** The tree of a comment writes, in order, all that is to be seen of its lines without their markers. */
  lemma CommentIsWritten(comment: string, markers: Markers)
    ensures var lines := LinesOf(comment);
            Squeezed(Written(FlattenAll(Elements(Tokens(lines, markers), 0, [])))) == Seen(lines, markers, |lines|)
  {
    hide Squeezed, Written, Paired, Tokens, Elements, LinesOf, Slice;
    var lines := LinesOf(comment);
    var tokens := Tokens(lines, markers);
    NoTokenIsLost(lines, markers);
    TokensWriteTheLines(lines, markers);
    SliceWrites(tokens, 0);
    assert tokens[0..] == tokens;
  }
}
