/** Where the elements of a documentation comment begin and end, told from the tokens alone: a block tag
    begins one, and so does text or an inline tag behind a break, and an inline tag behind a block tag. */
module DocStructure {
  import opened DocTokens
  import opened DocParser

  /** An element begins at this token. */
  predicate Begins(tokens: seq<Token>, i: nat)
    requires i < |tokens|
  {
    match tokens[i]
    case Break => false
    case Tag(_) => true
    case Text(_) => i == 0 || tokens[i - 1].Break?
    case InlineTag(_) => i == 0 || tokens[i - 1].Break? || tokens[i - 1].Tag?
  }

  /** The beginnings among the first `n` tokens. */
  function Beginnings(tokens: seq<Token>, n: nat): (starts: seq<nat>)
    requires n <= |tokens|
    ensures forall s <- starts :: s < n
  {
    if n == 0 then []
    else Beginnings(tokens, n - 1) + if Begins(tokens, n - 1) then [n - 1] else []
  }

  lemma {:induction false} BeginningIff(tokens: seq<Token>, n: nat, i: nat)
    requires i < n <= |tokens|
    ensures i in Beginnings(tokens, n) <==> Begins(tokens, i)
  {
    var before := Beginnings(tokens, n - 1);
    if i < n - 1 {
      BeginningIff(tokens, n - 1, i);
      assert Begins(tokens, n - 1) ==> (i in before + [n - 1] <==> i in before || i == n - 1);
    } else if Begins(tokens, i) {
      assert Beginnings(tokens, n)[|before|] == i;
    } else {
      assert Beginnings(tokens, n) == before;
    }
  }

  predicate Ascending(starts: seq<nat>) {
    forall k: nat, l: nat :: k < l < |starts| ==> starts[k] < starts[l]
  }

  lemma OneMoreAscends(starts: seq<nat>, last: nat)
    requires Ascending(starts) && forall s <- starts :: s < last
    ensures Ascending(starts + []) && Ascending(starts + [last])
  {
    assert starts + [] == starts;
    assert forall k: nat :: k < |starts| ==> starts[k] in starts;
  }

  /** The beginnings are listed in the order of the tokens. */
  lemma {:induction false} BeginningsAscend(tokens: seq<Token>, n: nat)
    requires n <= |tokens|
    ensures Ascending(Beginnings(tokens, n))
  {
    if n > 0 {
      BeginningsAscend(tokens, n - 1);
      OneMoreAscends(Beginnings(tokens, n - 1), n - 1);
    }
  }

  lemma {:induction false} NoneInBetween(tokens: seq<Token>, i: nat, j: nat)
    requires i <= j <= |tokens| && forall k: nat :: i <= k < j ==> !Begins(tokens, k)
    ensures Beginnings(tokens, j) == Beginnings(tokens, i)
    decreases j - i
  {
    hide Begins;
    if i < j {
      NoneInBetween(tokens, i, j - 1);
    }
  }

  /** A line, or an inline tag around the one line that is its text. */
  predicate IsInline(node: Node) {
    node.Line? || (node.TagNode? && node.inlineTag && |node.children| == 1 && node.children[0].Line?)
  }

  /** A paragraph or a block tag of lines and inline tags. */
  predicate IsElement(node: Node) {
    && (node.Paragraph? || (node.TagNode? && !node.inlineTag))
    && forall child <- node.children :: IsInline(child)
  }

  /** Where element `k` ends: at the next one, or at `n`. */
  function EndOf(starts: seq<nat>, k: nat, n: nat): nat {
    if k + 1 < |starts| then starts[k + 1] else n
  }

  /** Element `k` takes the tokens from its beginning to the next, and is a tag exactly if it begins with one. */
  ghost predicate Takes(tokens: seq<Token>, starts: seq<nat>, n: nat, nodes: seq<Node>, k: nat)
    requires k < |nodes| == |starts|
  {
    && IsElement(nodes[k])
    && starts[k] <= EndOf(starts, k, n) <= |tokens| && starts[k] < |tokens|
    && Flatten(nodes[k]) == Slice(tokens, starts[k], EndOf(starts, k, n))
    && (nodes[k].TagNode? <==> tokens[starts[k]].Tag?)
  }

  /** The nodes are the elements that the first `n` tokens make. */
  ghost predicate MadeOf(tokens: seq<Token>, n: nat, nodes: seq<Node>)
    requires n <= |tokens|
  {
    var starts := Beginnings(tokens, n);
    |nodes| == |starts| && forall k: nat :: k < |nodes| ==> Takes(tokens, starts, n, nodes, k)
  }

  // ---- Runs of text ----

  lemma {:induction false} TextRuns(tokens: seq<Token>, i: nat)
    requires i <= |tokens|
    ensures i <= TextEnd(tokens, i) <= |tokens| && !InlineAt(tokens, TextEnd(tokens, i))
    ensures forall j: nat :: i <= j < TextEnd(tokens, i) ==> InlineAt(tokens, j)
    decreases |tokens| - i
  {
    if InlineAt(tokens, i) {
      TextRuns(tokens, InlineEnd(tokens, i));
    }
  }

  lemma {:induction false} TextIsInline(tokens: seq<Token>, i: nat)
    requires Shaped(tokens)
    ensures forall child <- TextNodes(tokens, i) :: IsInline(child)
    decreases |tokens| - i
  {
    if InlineAt(tokens, i) {
      TextIsInline(tokens, InlineEnd(tokens, i));
      assert TextNodes(tokens, i) == [InlineNode(tokens, i)] + TextNodes(tokens, InlineEnd(tokens, i));
    }
  }

  lemma ShapedIsSigned(tokens: seq<Token>)
    requires Shaped(tokens)
    ensures Signed(tokens)
  {
    forall i: nat | i < |tokens|
      ensures StartsWithSign(tokens[i])
    {
      assert tokens[i] in tokens;
    }
  }

  /** An element runs to the next break or beginning. */
  lemma ElementRuns(tokens: seq<Token>, i: nat)
    requires i < |tokens| && !tokens[i].Break?
    ensures var end := ElementEnd(tokens, i);
            && i < end <= |tokens|
            && (forall j: nat :: i < j < end ==> !Begins(tokens, j))
            && (end < |tokens| ==> tokens[end].Break? || Begins(tokens, end))
  {
    if InlineAt(tokens, i) {
      TextRuns(tokens, i);
    } else if TextAt(tokens, i + 1) {
      TextRuns(tokens, i + 1);
    }
    forall j: nat | i < j < ElementEnd(tokens, i)
      ensures !Begins(tokens, j)
    {
      assert InlineAt(tokens, j) && (i + 1 < j ==> InlineAt(tokens, j - 1));
    }
  }

  lemma ElementIsBuilt(tokens: seq<Token>, i: nat)
    requires i < |tokens| && !tokens[i].Break? && Shaped(tokens)
    ensures IsElement(ElementNode(tokens, i)) && (ElementNode(tokens, i).TagNode? <==> tokens[i].Tag?)
    ensures i < ElementEnd(tokens, i) <= |tokens| && Flatten(ElementNode(tokens, i)) == Slice(tokens, i, ElementEnd(tokens, i))
  {
    ShapedIsSigned(tokens);
    ElementFlattens(tokens, i);
    hide Slice, Flatten, IsInline, Shaped, Signed, TextNodes, TextEnd;
    TextIsInline(tokens, i);
    TextIsInline(tokens, i + 1);
  }

  // ---- The parse, one step at a time ----

  lemma ElementIsAdded(tokens: seq<Token>, i: nat, before: seq<Node>)
    requires i < |tokens| && Begins(tokens, i) && Shaped(tokens) && MadeOf(tokens, i, before)
    ensures ElementEnd(tokens, i) <= |tokens| && MadeOf(tokens, ElementEnd(tokens, i), before + [ElementNode(tokens, i)])
  {
    hide Slice, Flatten, IsElement, Shaped, ElementNode, ElementEnd;
    var end, starts := ElementEnd(tokens, i), Beginnings(tokens, i);
    ElementRuns(tokens, i);
    ElementIsBuilt(tokens, i);
    NoneInBetween(tokens, i + 1, end);
    assert Beginnings(tokens, end) == starts + [i];
    var after := before + [ElementNode(tokens, i)];
    forall k: nat | k < |after|
      ensures Takes(tokens, starts + [i], end, after, k)
    {
      if k < |before| {
        assert Takes(tokens, starts, i, before, k);
        assert EndOf(starts + [i], k, end) == EndOf(starts, k, i);
      }
    }
  }

  lemma EmptyLineIsBuilt(node: Node)
    requires IsElement(node)
    ensures IsElement(WithEmptyLine(node)) && (WithEmptyLine(node).TagNode? <==> node.TagNode?)
    ensures Flatten(WithEmptyLine(node)) == Flatten(node) + [Text("")]
  {
    EmptyLineFlattens(node);
  }

  lemma BreakIsAdded(tokens: seq<Token>, i: nat, before: seq<Node>)
    requires i < |tokens| && tokens[i].Break? && before != [] && MadeOf(tokens, i, before)
    ensures MadeOf(tokens, i + 1, before[..|before| - 1] + [WithEmptyLine(before[|before| - 1])])
  {
    hide Slice, Flatten, IsElement, WithEmptyLine;
    var last, starts := |before| - 1, Beginnings(tokens, i);
    assert Beginnings(tokens, i + 1) == starts;
    assert Takes(tokens, starts, i, before, last);
    EmptyLineIsBuilt(before[last]);
    SliceOne(tokens, i);
    SlicesJoin(tokens, starts[last], i, i + 1);
    var after := before[..last] + [WithEmptyLine(before[last])];
    var n := i + 1;
    forall k: nat | k < |after|
      ensures Takes(tokens, starts, n, after, k)
    {
      assert Takes(tokens, starts, i, before, k);
    }
  }

  lemma {:induction false} ElementsAreMade(tokens: seq<Token>, i: nat, before: seq<Node>)
    requires i <= |tokens| && Shaped(tokens) && MadeOf(tokens, i, before) && (before == [] ==> i == 0)
    requires i < |tokens| ==> Begins(tokens, i) || (tokens[i].Break? && before != [])
    ensures MadeOf(tokens, |tokens|, Elements(tokens, i, before))
    decreases |tokens| - i
  {
    hide MadeOf, Shaped, ElementNode, ElementEnd, WithEmptyLine;
    if i < |tokens| {
      if tokens[i].Break? {
        BreakIsAdded(tokens, i, before);
        ElementsAreMade(tokens, i + 1, before[..|before| - 1] + [WithEmptyLine(before[|before| - 1])]);
      } else {
        ElementRuns(tokens, i);
        ElementIsAdded(tokens, i, before);
        ElementsAreMade(tokens, ElementEnd(tokens, i), before + [ElementNode(tokens, i)]);
      }
    }
  }

  /** A comment has one element for each beginning, which takes the tokens up to the next. */
  lemma CommentIsMade(lines: seq<string>, markers: Markers)
    ensures var tokens := Tokens(lines, markers); MadeOf(tokens, |tokens|, Elements(tokens, 0, []))
  {
    var tokens := Tokens(lines, markers);
    hide Tokens, Shaped, Elements;
    TokenizeIsShaped(lines, markers);
    ElementsAreMade(tokens, 0, []);
  }
}
