/** Tokens of a documentation comment: from lines to text, tags, inline tags and breaks. */
module DocTokens {
  import opened Options

  predicate IsSpace(c: char) { c == ' ' || '\t' <= c <= '\r' }
  predicate IsAlpha(c: char) { 'a' <= c <= 'z' || 'A' <= c <= 'Z' }
  predicate IsAlnum(c: char) { IsAlpha(c) || '0' <= c <= '9' }
  predicate IsContent(c: char) { c != '}' && c != '\n' && c != '\r' }

  datatype Token = Text(content: string) | Tag(content: string) | InlineTag(content: string) | Break

  /** The first position at or after `p` whose character is not in the class. */
  function PastAll(s: string, p: nat, ofKind: char -> bool): (r: nat)
    ensures p <= r && (p <= |s| ==> r <= |s|)
    ensures forall i: nat :: p <= i < r ==> i < |s| && ofKind(s[i])
    ensures r < |s| ==> !ofKind(s[r])
    decreases |s| - p
  {
    if p < |s| && ofKind(s[p]) then PastAll(s, p + 1, ofKind) else p
  }

  /** The length without the trailing characters of the class. */
  function WithoutTrailing(s: string, n: nat, ofKind: char -> bool): (r: nat)
    requires n <= |s|
    ensures r <= n
    ensures forall i: nat :: r <= i < n ==> ofKind(s[i])
    ensures r > 0 ==> !ofKind(s[r - 1])
  {
    if n > 0 && ofKind(s[n - 1]) then WithoutTrailing(s, n - 1, ofKind) else n
  }

  method SkipWhile(s: string, p: nat, ofKind: char -> bool) returns (r: nat)
    ensures r == PastAll(s, p, ofKind)
  {
    r := p;
    while r < |s| && ofKind(s[r])
      invariant p <= r && PastAll(s, r, ofKind) == PastAll(s, p, ofKind)
    {
      r := r + 1;
    }
  }

  method SkipBack(s: string, n: nat) returns (r: nat)
    requires n <= |s|
    ensures r == WithoutTrailing(s, n, IsSpace)
  {
    r := n;
    while r > 0 && IsSpace(s[r - 1])
      invariant r <= n && WithoutTrailing(s, r, IsSpace) == WithoutTrailing(s, n, IsSpace)
    {
      r := r - 1;
    }
  }

  predicate OccursAt(s: string, p: nat, marker: string) {
    p + |marker| <= |s| && s[p..p + |marker|] == marker
  }

  /** Past a leading marker, or the start of the line. */
  function PastPrefix(line: string, marker: string): nat {
    var begin := PastAll(line, 0, IsSpace);
    if OccursAt(line, begin, marker) then begin + |marker| else 0
  }

  /** The line without a trailing marker and the whitespace before it. */
  function WithoutSuffix(line: string, marker: string): string {
    var end := WithoutTrailing(line, |line|, IsSpace);
    if |marker| <= end && OccursAt(line, end - |marker|, marker) then line[..WithoutTrailing(line, end - |marker|, IsSpace)] else line
  }

  // Inline tags -------------------------------------------------------------------

  /** One inline tag: where it lies, its name, the whitespace after the name, and its content. */
  datatype Match = Match(begin: nat, end: nat, name: string, gap: string, content: string)

  function TagAt(f: string, p: nat): (r: Option<Match>)
    ensures r.Some? ==> r.value.begin == p && p + 3 < r.value.end <= |f|
  {
    if p + 2 >= |f| || f[p] != '{' || f[p + 1] != '@' || !IsAlpha(f[p + 2]) then None
    else
      var nameEnd := PastAll(f, p + 3, IsAlnum);
      var start := PastAll(f, nameEnd, IsSpace);
      var close := PastAll(f, start, IsContent);
      if close < |f| && f[close] == '}' then Some(Match(p, close + 1, f[p + 1..nameEnd], f[nameEnd..start], f[start..close])) else None
  }

  function TagsFrom(f: string, p: nat): seq<Match>
    decreases |f| - p
  {
    if p >= |f| then []
    else
      match TagAt(f, p)
      case None => TagsFrom(f, p + 1)
      case Some(m) => [m] + TagsFrom(f, m.end)
  }

  lemma Spliced(f: string, a: nat, b: nat, c: nat, d: nat)
    requires a + 1 < b <= c <= d < |f|
    ensures f[a..d + 1] == [f[a]] + f[a + 1..b] + f[b..c] + f[c..d] + [f[d]]
    ensures f[a + 1..b][0] == f[a + 1]
  {
  }

  /** A match is spelled in the text as a brace, its name, whitespace, its content and a brace. */
  lemma TagIsSpelled(f: string, p: nat)
    requires TagAt(f, p).Some?
    ensures var m := TagAt(f, p).value;
            && m.begin == p && p + 3 < m.end <= |f|
            && f[m.begin..m.end] == "{" + m.name + m.gap + m.content + "}"
            && |m.name| >= 2 && m.name[0] == '@' && IsAlpha(m.name[1]) && (forall i: nat :: 2 <= i < |m.name| ==> IsAlnum(m.name[i]))
            && (forall c <- m.gap :: IsSpace(c)) && (forall c <- m.content :: IsContent(c))
  {
    hide PastAll, IsSpace, IsAlnum, IsContent, IsAlpha;
    var nameEnd := PastAll(f, p + 3, IsAlnum);
    var start := PastAll(f, nameEnd, IsSpace);
    var close := PastAll(f, start, IsContent);
    Spliced(f, p, nameEnd, start, close);
    var name := f[p + 1..nameEnd];
    forall i: nat | 2 <= i < |name|
      ensures IsAlnum(name[i])
    {
      assert name[i] == f[p + 1 + i];
    }
  }

  /** A match at or after `p`, as the text has it. */
  predicate Located(f: string, p: nat, m: Match) {
    p <= m.begin < m.end <= |f| && TagAt(f, m.begin) == Some(m)
  }

  predicate AllLocated(f: string, p: nat, ms: seq<Match>) {
    forall i: nat :: i < |ms| ==> Located(f, p, ms[i])
  }

  predicate Apart(ms: seq<Match>) {
    forall i: nat, j: nat :: i < j < |ms| ==> ms[i].end <= ms[j].begin
  }

  /** The matches are disjoint and in order. */
  lemma {:induction false} TagsAreDisjoint(f: string, p: nat)
    ensures AllLocated(f, p, TagsFrom(f, p))
    ensures Apart(TagsFrom(f, p))
    decreases |f| - p
  {
    hide TagAt;
    if p < |f| {
      if TagAt(f, p).None? {
        TagsAreDisjoint(f, p + 1);
      } else {
        var m := TagAt(f, p).value;
        var rest := TagsFrom(f, m.end);
        TagsAreDisjoint(f, m.end);
        assert Located(f, p, m);
        forall i: nat | i < |rest|
          ensures Located(f, p, rest[i]) && m.end <= rest[i].begin
        {
          assert Located(f, m.end, rest[i]);
        }
      }
    }
  }

  ghost predicate Covered(ms: seq<Match>, q: nat) {
    exists i: nat :: i < |ms| && ms[i].begin <= q < ms[i].end
  }

  /** No inline tag begins outside of the matches. */
  lemma {:induction false} TagsAreLeftmost(f: string, p: nat)
    ensures forall q: nat :: p <= q < |f| && TagAt(f, q).Some? ==> Covered(TagsFrom(f, p), q)
    decreases |f| - p
  {
    hide TagAt;
    if p < |f| {
      if TagAt(f, p).None? {
        TagsAreLeftmost(f, p + 1);
      } else {
        var m := TagAt(f, p).value;
        var rest := TagsFrom(f, m.end);
        TagsAreLeftmost(f, m.end);
        forall q: nat | p <= q < |f| && TagAt(f, q).Some?
          ensures Covered([m] + rest, q)
        {
          if m.end <= q {
            var i: nat :| i < |rest| && rest[i].begin <= q < rest[i].end;
            assert ([m] + rest)[i + 1] == rest[i];
          } else {
            assert ([m] + rest)[0] == m;
          }
        }
      }
    }
  }

  /** What the matches and the text between them spell. */
  function Spelling(f: string, ms: seq<Match>, last: nat): string
    requires last <= |f| && Apart(ms) && forall i: nat :: i < |ms| ==> last <= ms[i].begin < ms[i].end <= |f|
  {
    if ms == [] then f[last..]
    else f[last..ms[0].begin] + ("{" + ms[0].name + ms[0].gap + ms[0].content + "}") + Spelling(f, ms[1..], ms[0].end)
  }

  /** No character is lost. */
  lemma {:induction false} MatchesSpellTheText(f: string, ms: seq<Match>, last: nat)
    requires last <= |f| && Apart(ms) && AllLocated(f, last, ms)
    ensures Spelling(f, ms, last) == f[last..]
    decreases |ms|
  {
    hide TagAt;
    if ms != [] {
      var m := ms[0];
      MatchesSpellTheText(f, ms[1..], m.end);
      TagIsSpelled(f, m.begin);
      assert f[last..] == f[last..m.begin] + f[m.begin..m.end] + f[m.end..];
    }
  }

  method MatchInlineTag(f: string, p: nat) returns (r: Option<Match>)
    requires p < |f|
    ensures r == TagAt(f, p)
  {
    hide PastAll, IsSpace, IsAlnum, IsContent, IsAlpha;
    if f[p] != '{' {
      return None;
    }
    var cursor := p + 1;
    if cursor >= |f| || f[cursor] != '@' {
      return None;
    }
    cursor := cursor + 1;
    if cursor >= |f| || !IsAlpha(f[cursor]) {
      return None;
    }
    var nameEnd := SkipWhile(f, cursor + 1, IsAlnum);
    var contentStart := SkipWhile(f, nameEnd, IsSpace);
    cursor := SkipWhile(f, contentStart, IsContent);
    if cursor >= |f| || f[cursor] != '}' {
      return None;
    }
    return Some(Match(p, cursor + 1, f[p + 1..nameEnd], f[nameEnd..contentStart], f[contentStart..cursor]));
  }

  method FindInlineTags(f: string) returns (matches: seq<Match>)
    ensures matches == TagsFrom(f, 0)
  {
    hide TagAt;
    matches := [];
    var pos := 0;
    while pos < |f|
      invariant TagsFrom(f, 0) == matches + TagsFrom(f, pos)
      decreases |f| - pos
    {
      var found := MatchInlineTag(f, pos);
      if found.None? {
        pos := pos + 1;
        continue;
      }
      assert matches + ([found.value] + TagsFrom(f, found.value.end)) == matches + [found.value] + TagsFrom(f, found.value.end);
      matches := matches + [found.value];
      pos := found.value.end;
    }
  }

  /** The tokens of a fragment from `last` on: the text between matches, and for each match its name and its content. */
  function TokensBetween(f: string, ms: seq<Match>, last: nat): seq<Token> {
    if ms == [] then
      if last < |f| then [Text(f[last..])] else []
    else
      (if last < ms[0].begin <= |f| then [Text(f[last..ms[0].begin])] else []) +
      [InlineTag(ms[0].name), Text(ms[0].content)] + TokensBetween(f, ms[1..], ms[0].end)
  }

  function InlineTokens(f: string): seq<Token> {
    if TagsFrom(f, 0) == [] then [Text(f)] else TokensBetween(f, TagsFrom(f, 0), 0)
  }

  /** What tokens spell: text as it is, an inline tag with its text in braces, and the given gap in between. */
  function Spelled(tokens: seq<Token>, gaps: seq<string>): string {
    if tokens == [] then ""
    else
      match tokens[0]
      case Text(content) => content + Spelled(tokens[1..], gaps)
      case InlineTag(name) =>
        if gaps == [] || |tokens| == 1 || !tokens[1].Text? then Spelled(tokens[1..], gaps)
        else ("{" + name + gaps[0] + tokens[1].content + "}") + Spelled(tokens[2..], gaps[1..])
      case _ => Spelled(tokens[1..], gaps)
  }

  function GapsOf(ms: seq<Match>): (gaps: seq<string>)
    ensures |gaps| == |ms|
  {
    seq(|ms|, i requires 0 <= i < |ms| => ms[i].gap)
  }

  lemma LaterMatches(f: string, ms: seq<Match>, last: nat)
    requires ms != [] && Apart(ms) && AllLocated(f, last, ms)
    ensures ms[0].end <= |f| && last <= ms[0].begin && TagAt(f, ms[0].begin) == Some(ms[0])
    ensures Apart(ms[1..]) && AllLocated(f, ms[0].end, ms[1..])
  {
    hide TagAt;
    assert Located(f, last, ms[0]);
    forall i: nat | i < |ms| - 1
      ensures Located(f, ms[0].end, ms[1..][i])
    {
      assert Located(f, last, ms[i + 1]);
    }
  }

  lemma FirstMatchUnfolds(f: string, ms: seq<Match>, last: nat)
    requires ms != [] && last <= |f| && Apart(ms) && AllLocated(f, last, ms)
    ensures var m := ms[0];
            var tokens := [InlineTag(m.name), Text(m.content)] + TokensBetween(f, ms[1..], m.end);
            && last <= m.begin <= m.end <= |f| && Apart(ms[1..]) && AllLocated(f, m.end, ms[1..])
            && TokensBetween(f, ms, last) == (if last < m.begin then [Text(f[last..m.begin])] + tokens else tokens)
            && Spelling(f, ms, last) == f[last..m.begin] + (("{" + m.name + m.gap + m.content + "}") + Spelling(f, ms[1..], m.end))
  {
    LaterMatches(f, ms, last);
    hide TagAt;
    var m := ms[0];
    var pair, rest := [InlineTag(m.name), Text(m.content)], TokensBetween(f, ms[1..], m.end);
    assert [Text(f[last..m.begin])] + pair + rest == [Text(f[last..m.begin])] + (pair + rest);
    var tag := "{" + m.name + m.gap + m.content + "}";
    var later := Spelling(f, ms[1..], m.end);
    assert f[last..m.begin] + tag + later == f[last..m.begin] + (tag + later);
  }

  lemma PairSpells(m: Match, rest: seq<Token>, gaps: seq<string>)
    requires gaps != [] && gaps[0] == m.gap
    ensures Spelled([InlineTag(m.name), Text(m.content)] + rest, gaps) == ("{" + m.name + m.gap + m.content + "}") + Spelled(rest, gaps[1..])
  {
    assert ([InlineTag(m.name), Text(m.content)] + rest)[2..] == rest;
  }

  lemma TextSpells(content: string, rest: seq<Token>, gaps: seq<string>)
    ensures Spelled([Text(content)] + rest, gaps) == content + Spelled(rest, gaps)
  {
    assert ([Text(content)] + rest)[1..] == rest;
  }

  lemma LeadSpells(f: string, last: nat, begin: nat, tokens: seq<Token>, gaps: seq<string>)
    requires last <= begin <= |f|
    ensures Spelled(if last < begin then [Text(f[last..begin])] + tokens else tokens, gaps) == f[last..begin] + Spelled(tokens, gaps)
  {
    TextSpells(f[last..begin], tokens, gaps);
    hide Spelled;
    if last == begin {
      assert f[last..begin] + Spelled(tokens, gaps) == Spelled(tokens, gaps);
    }
  }

  lemma RestSpells(f: string, last: nat, gaps: seq<string>)
    requires last <= |f|
    ensures Spelled(if last < |f| then [Text(f[last..])] else [], gaps) == f[last..]
  {
    LeadSpells(f, last, |f|, [], gaps);
    assert Spelled([], gaps) == "";
    hide Spelled;
    assert [Text(f[last..])] + [] == [Text(f[last..])] && f[last..|f|] == f[last..] && f[last..] + "" == f[last..];
  }

  lemma LaterGaps(ms: seq<Match>)
    requires ms != []
    ensures GapsOf(ms) != [] && GapsOf(ms)[0] == ms[0].gap && GapsOf(ms)[1..] == GapsOf(ms[1..])
  {
  }

  lemma {:induction false} BetweenSpells(f: string, ms: seq<Match>, last: nat)
    requires last <= |f| && Apart(ms) && AllLocated(f, last, ms)
    ensures Spelled(TokensBetween(f, ms, last), GapsOf(ms)) == Spelling(f, ms, last)
    decreases |ms|
  {
    if ms == [] {
      RestSpells(f, last, GapsOf(ms));
    } else {
      hide TagAt, TokensBetween, Spelling, Spelled, Apart, AllLocated, GapsOf;
      LaterMatches(f, ms, last);
      FirstMatchUnfolds(f, ms, last);
      LaterGaps(ms);
      var m := ms[0];
      var rest := TokensBetween(f, ms[1..], m.end);
      BetweenSpells(f, ms[1..], m.end);
      PairSpells(m, rest, GapsOf(ms));
      LeadSpells(f, last, m.begin, [InlineTag(m.name), Text(m.content)] + rest, GapsOf(ms));
    }
  }

  /** The tokens of a fragment spell it, but for whitespace between an inline tag's name and its content. */
  lemma TokensSpellTheFragment(f: string)
    ensures var gaps := GapsOf(TagsFrom(f, 0));
            && Spelled(InlineTokens(f), gaps) == f
            && forall i: nat :: i < |gaps| ==> forall c <- gaps[i] :: IsSpace(c)
  {
    hide TagAt, IsSpace;
    var ms := TagsFrom(f, 0);
    TagsAreDisjoint(f, 0);
    forall i: nat | i < |ms|
      ensures forall c <- ms[i].gap :: IsSpace(c)
    {
      assert Located(f, 0, ms[i]);
      TagIsSpelled(f, ms[i].begin);
    }
    if ms == [] {
      TextSpells(f, [], []);
      assert [Text(f)] + [] == [Text(f)];
    } else {
      BetweenSpells(f, ms, 0);
      MatchesSpellTheText(f, ms, 0);
    }
  }

  lemma MatchesInOrder(f: string, ms: seq<Match>, i: nat)
    requires AllLocated(f, 0, ms) && Apart(ms) && i < |ms|
    ensures ms[i].begin < ms[i].end <= |f| && (i + 1 < |ms| ==> ms[i].end <= ms[i + 1].begin)
  {
    hide TagAt;
    assert Located(f, 0, ms[i]);
  }

  lemma NextMatchTokens(f: string, ms: seq<Match>, i: nat, last: nat, r: seq<Token>)
    requires i < |ms| && last <= ms[i].begin < |f|
    ensures var text := if last < ms[i].begin then [Text(f[last..ms[i].begin])] else [];
            r + TokensBetween(f, ms[i..], last) ==
            r + text + [InlineTag(ms[i].name)] + [Text(ms[i].content)] + TokensBetween(f, ms[i + 1..], ms[i].end)
  {
    assert ms[i..][1..] == ms[i + 1..];
  }

  lemma LastTokens(f: string, last: nat, r: seq<Token>)
    ensures r + TokensBetween(f, [], last) == if last < |f| then r + [Text(f[last..])] else r
  {
  }

  method BuildInlineTokens(f: string, tokens: seq<Token>) returns (r: seq<Token>)
    ensures r == tokens + InlineTokens(f)
  {
    hide TagAt, TagsFrom, TokensBetween, Apart, AllLocated, Located;
    r := tokens;
    var matches := FindInlineTags(f);
    if matches == [] {
      return r + [Text(f)];
    }
    TagsAreDisjoint(f, 0);
    var last: nat := 0;
    assert matches[0..] == matches;
    for i := 0 to |matches|
      invariant last <= |f| && (i < |matches| ==> last <= matches[i].begin)
      invariant tokens + TokensBetween(f, matches, 0) == r + TokensBetween(f, matches[i..], last)
    {
      var m := matches[i];
      MatchesInOrder(f, matches, i);
      NextMatchTokens(f, matches, i, last, r);
      if m.begin > last {
        r := r + [Text(f[last..m.begin])];
      }
      r := r + [InlineTag(m.name)] + [Text(m.content)];
      last := m.end;
    }
    LastTokens(f, last, r);
    assert matches[|matches|..] == [];
    if last < |f| {
      r := r + [Text(f[last..])];
    }
  }

  // Lines ---------------------------------------------------------------------------

  predicate InLine(c: char) { c != '\n' }

  /** The stretches between line feeds. */
  function PiecesFrom(content: string, p: nat): (pieces: seq<string>)
    requires p <= |content|
    ensures pieces != []
    decreases |content| - p
  {
    var end := PastAll(content, p, InLine);
    [content[p..end]] + if end == |content| then [] else PiecesFrom(content, end + 1)
  }

  /** A line loses one carriage return at its end. */
  function WithoutReturn(piece: string): string {
    if piece != "" && piece[|piece| - 1] == '\r' then piece[..|piece| - 1] else piece
  }

  /** The lines from `p` on. */
  function LinesFrom(content: string, p: nat): (lines: seq<string>)
    requires p <= |content|
    decreases |content| - p
  {
    var end := PastAll(content, p, InLine);
    [WithoutReturn(content[p..end])] + if end == |content| then [] else LinesFrom(content, end + 1)
  }

  function LinesOf(content: string): seq<string> { LinesFrom(content, 0) }

  lemma FirstOfLines(content: string, p: nat)
    requires p <= |content|
    ensures var end := PastAll(content, p, InLine);
            && LinesFrom(content, p) == [WithoutReturn(content[p..end])] + (if end == |content| then [] else LinesFrom(content, end + 1))
            && PiecesFrom(content, p) == [content[p..end]] + (if end == |content| then [] else PiecesFrom(content, end + 1))
  {
    hide PastAll, WithoutReturn;
  }

  /** A line is a piece but for its carriage return. */
  lemma {:induction false} LinesArePieces(content: string, p: nat)
    requires p <= |content|
    ensures |LinesFrom(content, p)| == |PiecesFrom(content, p)|
    ensures forall i: nat :: i < |LinesFrom(content, p)| ==> LinesFrom(content, p)[i] == WithoutReturn(PiecesFrom(content, p)[i])
    decreases |content| - p
  {
    hide PastAll, WithoutReturn, LinesFrom, PiecesFrom;
    FirstOfLines(content, p);
    var end := PastAll(content, p, InLine);
    if end < |content| {
      LinesArePieces(content, end + 1);
      forall i: nat | i < |LinesFrom(content, p)|
        ensures LinesFrom(content, p)[i] == WithoutReturn(PiecesFrom(content, p)[i])
      {
        if i > 0 {
          assert LinesFrom(content, p)[i] == LinesFrom(content, end + 1)[i - 1];
        }
      }
    }
  }

  function Joined(pieces: seq<string>): string {
    if pieces == [] then "" else if |pieces| == 1 then pieces[0] else pieces[0] + "\n" + Joined(pieces[1..])
  }

  /** Splitting loses nothing but carriage returns before line feeds, and no line holds a line feed. */
  lemma {:induction false} PiecesJoin(content: string, p: nat)
    requires p <= |content|
    ensures Joined(PiecesFrom(content, p)) == content[p..]
    ensures forall i: nat :: i < |PiecesFrom(content, p)| ==> '\n' !in PiecesFrom(content, p)[i]
    decreases |content| - p
  {
    hide PastAll;
    var end := PastAll(content, p, InLine);
    if end < |content| {
      PiecesJoin(content, end + 1);
      assert content[p..] == content[p..end] + "\n" + content[end + 1..];
      assert PiecesFrom(content, p)[1..] == PiecesFrom(content, end + 1);
    }
  }

  lemma NextLine(content: string, p: nat, before: seq<string>)
    requires p <= |content|
    ensures var end := PastAll(content, p, InLine);
            before + LinesFrom(content, p) ==
            before + [WithoutReturn(content[p..end])] + if end == |content| then [] else LinesFrom(content, end + 1)
  {
    hide PastAll, WithoutReturn;
  }

  method GetLines(content: string) returns (lines: seq<string>)
    ensures lines == LinesOf(content)
  {
    hide PastAll, WithoutReturn, LinesFrom;
    lines := [];
    var begin: nat := 0;
    while true
      invariant begin <= |content| && LinesOf(content) == lines + LinesFrom(content, begin)
      decreases |content| - begin
    {
      NextLine(content, begin, lines);
      var newline := SkipWhile(content, begin, InLine);
      lines := lines + [WithoutReturn(content[begin..newline])];
      if newline == |content| {
        return;
      }
      begin := newline + 1;
    }
  }

  datatype Markers = Markers(start: string, line: string, end: string)

  /** A line's text without its markers and trailing whitespace, and where its content begins. */
  function Cut(lines: seq<string>, i: nat, markers: Markers): (string, nat)
    requires i < |lines|
  {
    var index :=
      if i == 0 && markers.start != "" then PastPrefix(lines[i], markers.start)
      else if markers.line != "" then PastPrefix(lines[i], markers.line)
      else 0;
    var line := if i == |lines| - 1 && markers.end != "" then WithoutSuffix(lines[i], markers.end) else lines[i];
    (line[..WithoutTrailing(line, |line|, IsSpace)], index)
  }

  predicate IsBlank(line: string, index: nat) {
    PastAll(line, index, IsSpace) >= |line|
  }

  /** The end of the block tag that begins after whitespace at `index`. */
  function BlockTagEnd(line: string, index: nat): Option<nat> {
    var at := PastAll(line, index, IsSpace);
    if at >= |line| || line[at] != '@' then None
    else if at + 1 < |line| && IsAlpha(line[at + 1]) then Some(PastAll(line, at + 2, IsAlnum))
    else Some(at + 1)
  }

  function LineTokens(line: string, index: nat): seq<Token> {
    var tag := BlockTagEnd(line, index);
    var head := if tag.Some? then [Tag(line[PastAll(line, index, IsSpace)..tag.value])] else [];
    var begin := if tag.Some? then PastAll(line, tag.value, IsSpace) else index;
    head + if begin < |line| then InlineTokens(line[begin..]) else []
  }

  /** The tokens of the first `k` lines; a blank line breaks, unless nothing came before it. */
  function TokensOf(lines: seq<string>, markers: Markers, k: nat): seq<Token>
    requires k <= |lines|
  {
    if k == 0 then []
    else
      var before := TokensOf(lines, markers, k - 1);
      var (line, index) := Cut(lines, k - 1, markers);
      if !IsBlank(line, index) then before + LineTokens(line, index)
      else if before == [] then []
      else before + [Break]
  }

  function Tokens(lines: seq<string>, markers: Markers): seq<Token> {
    var all := TokensOf(lines, markers, |lines|);
    if all != [] && all[|all| - 1] == Break then all[..|all| - 1] else all
  }

  method MatchPrefixMarker(line: string, marker: string) returns (r: Option<nat>)
    ensures (if r.Some? then r.value else 0) == PastPrefix(line, marker)
  {
    var begin := SkipWhile(line, 0, IsSpace);
    if OccursAt(line, begin, marker) {
      return Some(begin + |marker|);
    }
    return None;
  }

  method MatchSuffixMarker(line: string, marker: string) returns (r: Option<nat>)
    ensures r.Some? ==> r.value <= |line|
    ensures (if r.Some? then line[..r.value] else line) == WithoutSuffix(line, marker)
  {
    var end := SkipBack(line, |line|);
    if end < |marker| || !OccursAt(line, end - |marker|, marker) {
      return None;
    }
    var begin := SkipBack(line, end - |marker|);
    return Some(begin);
  }

  /** Where the tag's sign is, and the end of the tag. */
  method MatchBlockTag(line: string, index: nat) returns (r: Option<(nat, nat)>)
    ensures r.Some? == BlockTagEnd(line, index).Some?
    ensures r.Some? ==> r.value == (PastAll(line, index, IsSpace), BlockTagEnd(line, index).value)
  {
    var cursor := SkipWhile(line, index, IsSpace);
    if cursor >= |line| || line[cursor] != '@' {
      return None;
    }
    var nameStart := cursor;
    cursor := cursor + 1;
    if cursor < |line| && IsAlpha(line[cursor]) {
      cursor := SkipWhile(line, cursor + 1, IsAlnum);
    }
    return Some((nameStart, cursor));
  }

  method CutLine(lines: seq<string>, i: nat, markers: Markers) returns (line: string, index: nat)
    requires i < |lines|
    ensures (line, index) == Cut(lines, i, markers)
  {
    line, index := lines[i], 0;
    if i == 0 && markers.start != "" {
      var past := MatchPrefixMarker(line, markers.start);
      if past.Some? {
        index := past.value;
      }
    } else if markers.line != "" {
      var past := MatchPrefixMarker(line, markers.line);
      if past.Some? {
        index := past.value;
      }
    }
    if i + 1 == |lines| && markers.end != "" {
      var truncate := MatchSuffixMarker(line, markers.end);
      if truncate.Some? {
        line := line[..truncate.value];
      }
    }
    var end := SkipBack(line, |line|);
    line := line[..end];
  }

  /** A line that is not blank: an optional block tag, then text and inline tags. */
  method TokenizeLine(line: string, index: nat, tokens: seq<Token>) returns (r: seq<Token>)
    requires !IsBlank(line, index)
    ensures r == tokens + LineTokens(line, index)
  {
    hide PastAll, IsSpace, InlineTokens;
    r := tokens;
    var begin := index;
    var tag := MatchBlockTag(line, index);
    if tag.Some? {
      r := r + [Tag(line[tag.value.0..tag.value.1])];
      begin := SkipWhile(line, tag.value.1, IsSpace);
    }
    if begin < |line| {
      r := BuildInlineTokens(line[begin..], r);
    }
  }

  method Tokenize(lines: seq<string>, markers: Markers) returns (tokens: seq<Token>)
    ensures tokens == Tokens(lines, markers)
  {
    hide Cut, LineTokens, PastAll, IsSpace;
    tokens := [];
    for i := 0 to |lines|
      invariant tokens == TokensOf(lines, markers, i)
    {
      var line, index := CutLine(lines, i, markers);
      var content := SkipWhile(line, index, IsSpace);
      if content >= |line| {
        if tokens != [] {
          tokens := tokens + [Break];
        }
      } else {
        tokens := TokenizeLine(line, index, tokens);
      }
    }
    if tokens != [] && tokens[|tokens| - 1] == Break {
      tokens := tokens[..|tokens| - 1];
    }
  }

  // What the parser may rely on ---------------------------------------------------------

  predicate StartsWithSign(t: Token) {
    (t.Tag? || t.InlineTag?) ==> t.content != "" && t.content[0] == '@'
  }

  /** Tags carry their sign, an inline tag is followed by its text. */
  predicate Shaped(tokens: seq<Token>) {
    && (forall t <- tokens :: StartsWithSign(t))
    && (forall i: nat :: i < |tokens| && tokens[i].InlineTag? ==> i + 1 < |tokens| && tokens[i + 1].Text?)
  }

  lemma ShapedTogether(a: seq<Token>, b: seq<Token>)
    requires Shaped(a) && Shaped(b)
    ensures Shaped(a + b)
  {
    var both := a + b;
    forall i: nat | i < |both| && both[i].InlineTag?
      ensures i + 1 < |both| && both[i + 1].Text?
    {
      if i < |a| {
        assert a[i].InlineTag?;
        assert both[i + 1] == a[i + 1];
      } else {
        assert b[i - |a|].InlineTag?;
        assert both[i + 1] == b[i - |a| + 1];
      }
    }
  }

  lemma TextIsShaped(f: string, last: nat)
    ensures Shaped(TokensBetween(f, [], last)) && forall t <- TokensBetween(f, [], last) :: !t.Break?
  {
  }

  lemma PairIsShaped(text: seq<Token>, m: Match)
    requires m.name != "" && m.name[0] == '@' && (text == [] || (|text| == 1 && text[0].Text?))
    ensures Shaped(text + [InlineTag(m.name), Text(m.content)])
  {
  }

  lemma {:induction false} BetweenIsShaped(f: string, ms: seq<Match>, last: nat)
    requires AllLocated(f, 0, ms)
    ensures Shaped(TokensBetween(f, ms, last))
    ensures forall t <- TokensBetween(f, ms, last) :: !t.Break?
    decreases |ms|
  {
    if ms == [] {
      TextIsShaped(f, last);
    } else {
      assert Located(f, 0, ms[0]);
      forall i: nat | i < |ms| - 1
        ensures Located(f, 0, ms[1..][i])
      {
        assert Located(f, 0, ms[i + 1]);
      }
      TagIsSpelled(f, ms[0].begin);
      hide TagAt, Shaped;
      BetweenIsShaped(f, ms[1..], ms[0].end);
      var text := if last < ms[0].begin <= |f| then [Text(f[last..ms[0].begin])] else [];
      PairIsShaped(text, ms[0]);
      ShapedTogether(text + [InlineTag(ms[0].name), Text(ms[0].content)], TokensBetween(f, ms[1..], ms[0].end));
    }
  }

  lemma InlineIsShaped(f: string)
    ensures Shaped(InlineTokens(f)) && InlineTokens(f) != []
    ensures forall t <- InlineTokens(f) :: !t.Break?
  {
    hide TagAt;
    TagsAreDisjoint(f, 0);
    BetweenIsShaped(f, TagsFrom(f, 0), 0);
  }

  lemma LineIsShaped(line: string, index: nat)
    requires !IsBlank(line, index)
    ensures Shaped(LineTokens(line, index)) && LineTokens(line, index) != []
    ensures forall t <- LineTokens(line, index) :: !t.Break?
  {
    hide PastAll, IsSpace, IsAlpha, IsAlnum, InlineTokens;
    assert index <= |line|;
    var tag := BlockTagEnd(line, index);
    var head := if tag.Some? then [Tag(line[PastAll(line, index, IsSpace)..tag.value])] else [];
    var begin := if tag.Some? then PastAll(line, tag.value, IsSpace) else index;
    if begin < |line| {
      InlineIsShaped(line[begin..]);
      ShapedTogether(head, InlineTokens(line[begin..]));
    }
  }

  lemma BreakIsShaped()
    ensures Shaped([Break]) && Shaped([])
  {
  }

  /** Tokens are well shaped and never begin with a break; so a break always has something before it. */
  lemma {:induction false} TokensAreShaped(lines: seq<string>, markers: Markers, k: nat)
    requires k <= |lines|
    ensures var tokens := TokensOf(lines, markers, k); Shaped(tokens) && (tokens != [] ==> !tokens[0].Break?)
  {
    BreakIsShaped();
    hide Cut, IsBlank, LineTokens, Shaped;
    if k > 0 {
      TokensAreShaped(lines, markers, k - 1);
      var before := TokensOf(lines, markers, k - 1);
      var (line, index) := Cut(lines, k - 1, markers);
      if IsBlank(line, index) {
        ShapedTogether(before, [Break]);
      } else {
        LineIsShaped(line, index);
        ShapedTogether(before, LineTokens(line, index));
      }
    }
  }

  lemma TokenizeIsShaped(lines: seq<string>, markers: Markers)
    ensures var tokens := Tokens(lines, markers); Shaped(tokens) && (tokens != [] ==> !tokens[0].Break?)
  {
    TokensAreShaped(lines, markers, |lines|);
    var all := TokensOf(lines, markers, |lines|);
    if all != [] && all[|all| - 1] == Break {
      var tokens := all[..|all| - 1];
      forall i: nat | i < |tokens| && tokens[i].InlineTag?
        ensures i + 1 < |tokens| && tokens[i + 1].Text?
      {
        assert all[i].InlineTag? && all[i + 1].Text?;
      }
    }
  }

  ghost predicate BlankLine(lines: seq<string>, markers: Markers, i: nat)
    requires i < |lines|
  {
    var (line, index) := Cut(lines, i, markers); IsBlank(line, index)
  }

  /** Only one trailing break is dropped: a comment that ends in two blank lines keeps the other. */
  lemma OneTrailingBreakIsDropped(lines: seq<string>, markers: Markers)
    ensures var tokens := Tokens(lines, markers);
            tokens != [] && tokens[|tokens| - 1].Break? <==>
              && |lines| >= 2 && BlankLine(lines, markers, |lines| - 1) && BlankLine(lines, markers, |lines| - 2)
              && TokensOf(lines, markers, |lines| - 2) != []
  {
    hide Cut, IsBlank, LineTokens, Shaped;
    assert TokensOf(lines, markers, 0) == [];
    if |lines| >= 1 {
      ghost var before := TokensOf(lines, markers, |lines| - 1);
      var (line, index) := Cut(lines, |lines| - 1, markers);
      if !IsBlank(line, index) {
        LineIsShaped(line, index);
        assert LineTokens(line, index)[|LineTokens(line, index)| - 1] in LineTokens(line, index);
      } else if |lines| >= 2 {
        var (line', index') := Cut(lines, |lines| - 2, markers);
        if !IsBlank(line', index') {
          LineIsShaped(line', index');
          assert LineTokens(line', index')[|LineTokens(line', index')| - 1] in LineTokens(line', index');
        }
      }
    }
  }
}
