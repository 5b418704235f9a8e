/** Parsing the tokens of a documentation comment into paragraphs and tags.

    Source ranges are not part of the model, so a node is its kind, its name or text and its children. */
module DocParser {
  import opened Options
  import opened DocTokens

  datatype Node =
    | Line(text: string)
    | Paragraph(children: seq<Node>)
    | TagNode(name: string, inlineTag: bool, children: seq<Node>)

  // The tree a position stands for ----------------------------------------------------

  predicate TextAt(tokens: seq<Token>, i: nat) { i < |tokens| && tokens[i].Text? }

  /** A paragraph goes on over text and inline tags. */
  predicate InlineAt(tokens: seq<Token>, i: nat) {
    i < |tokens| && (tokens[i].Text? || tokens[i].InlineTag?)
  }

  function InlineEnd(tokens: seq<Token>, i: nat): nat {
    if i < |tokens| && tokens[i].InlineTag? && TextAt(tokens, i + 1) then i + 2 else i + 1
  }

  /** An inline tag takes the one text that follows it. */
  function InlineNode(tokens: seq<Token>, i: nat): Node
    requires InlineAt(tokens, i)
  {
    if tokens[i].Text? then Line(tokens[i].content)
    else
      TagNode(if tokens[i].content == "" then "" else tokens[i].content[1..], true,
              if TextAt(tokens, i + 1) then [Line(tokens[i + 1].content)] else [])
  }

  function TextEnd(tokens: seq<Token>, i: nat): (end: nat)
    ensures i <= end && (i <= |tokens| ==> end <= |tokens|) && (InlineAt(tokens, i) ==> i < end)
    decreases |tokens| - i
  {
    if InlineAt(tokens, i) then TextEnd(tokens, InlineEnd(tokens, i)) else i
  }

  function TextNodes(tokens: seq<Token>, i: nat): seq<Node>
    decreases |tokens| - i
  {
    if InlineAt(tokens, i) then [InlineNode(tokens, i)] + TextNodes(tokens, InlineEnd(tokens, i)) else []
  }

  /** A block tag takes the paragraph that follows it, if it begins with text. */
  function ElementEnd(tokens: seq<Token>, i: nat): nat
    requires i < |tokens| && !tokens[i].Break?
  {
    if InlineAt(tokens, i) then TextEnd(tokens, i)
    else if TextAt(tokens, i + 1) then TextEnd(tokens, i + 1)
    else i + 1
  }

  function ElementNode(tokens: seq<Token>, i: nat): Node
    requires i < |tokens| && !tokens[i].Break?
  {
    if InlineAt(tokens, i) then Paragraph(TextNodes(tokens, i))
    else
      TagNode(if tokens[i].content == "" then "" else tokens[i].content[1..], false,
              if TextAt(tokens, i + 1) then TextNodes(tokens, i + 1) else [])
  }

  function WithEmptyLine(node: Node): Node {
    match node
    case Line(_) => node
    case Paragraph(children) => Paragraph(children + [Line("")])
    case TagNode(name, inlineTag, children) => TagNode(name, inlineTag, children + [Line("")])
  }

  /** A break adds an empty line to the last element; with no element yet it is dropped. */
  function Elements(tokens: seq<Token>, i: nat, before: seq<Node>): seq<Node>
    decreases |tokens| - i
  {
    if i >= |tokens| then before
    else if tokens[i].Break? then
      Elements(tokens, i + 1, if before == [] then [] else before[..|before| - 1] + [WithEmptyLine(before[|before| - 1])])
    else Elements(tokens, ElementEnd(tokens, i), before + [ElementNode(tokens, i)])
  }

  // Flattening ------------------------------------------------------------------------

  /** The tokens a tree stands for. */
  function Flatten(node: Node): seq<Token> {
    match node
    case Line(text) => [Text(text)]
    case Paragraph(children) => FlattenAll(children)
    case TagNode(name, inlineTag, children) => [if inlineTag then InlineTag("@" + name) else Tag("@" + name)] + FlattenAll(children)
  }

  function FlattenAll(nodes: seq<Node>): seq<Token> {
    if nodes == [] then [] else Flatten(nodes[0]) + FlattenAll(nodes[1..])
  }

  function Normalized(t: Token): Token { if t.Break? then Text("") else t }

  /** The tokens from `i` to `j`, with breaks read as empty text lines. */
  function Slice(tokens: seq<Token>, i: nat, j: nat): seq<Token>
    requires i <= j <= |tokens|
  {
    seq(j - i, k requires 0 <= k < j - i => Normalized(tokens[i + k]))
  }

  lemma SlicesJoin(tokens: seq<Token>, i: nat, j: nat, k: nat)
    requires i <= j <= k <= |tokens|
    ensures Slice(tokens, i, j) + Slice(tokens, j, k) == Slice(tokens, i, k)
  {
  }

  lemma SliceOne(tokens: seq<Token>, i: nat)
    requires i < |tokens|
    ensures Slice(tokens, i, i + 1) == [Normalized(tokens[i])]
  {
    assert Slice(tokens, i, i + 1)[0] == Normalized(tokens[i + 0]);
  }

  lemma Associates(a: seq<Token>, b: seq<Token>, c: seq<Token>)
    ensures a + b + c == a + (b + c)
  {
  }

  lemma {:induction false} FlattenAppends(a: seq<Node>, b: seq<Node>)
    ensures FlattenAll(a + b) == FlattenAll(a) + FlattenAll(b)
  {
    hide Flatten;
    if a == [] {
      assert a + b == b;
    } else {
      FlattenAppends(a[1..], b);
      assert (a + b)[0] == a[0] && (a + b)[1..] == a[1..] + b;
      Associates(Flatten(a[0]), FlattenAll(a[1..]), FlattenAll(b));
    }
  }

  predicate Signed(tokens: seq<Token>) {
    forall i: nat :: i < |tokens| ==> StartsWithSign(tokens[i])
  }

  lemma OneFlattens(node: Node)
    ensures FlattenAll([node]) == Flatten(node)
  {
    assert FlattenAll([node]) == Flatten(node) + FlattenAll([]);
  }

  lemma InlineFlattens(tokens: seq<Token>, i: nat)
    requires InlineAt(tokens, i) && Signed(tokens)
    ensures InlineEnd(tokens, i) <= |tokens| && Flatten(InlineNode(tokens, i)) == Slice(tokens, i, InlineEnd(tokens, i))
  {
    assert StartsWithSign(tokens[i]);
    SliceOne(tokens, i);
    if tokens[i].InlineTag? {
      assert tokens[i].content == "@" + tokens[i].content[1..];
      assert FlattenAll([]) == [];
      if TextAt(tokens, i + 1) {
        OneFlattens(Line(tokens[i + 1].content));
        SliceOne(tokens, i + 1);
        SlicesJoin(tokens, i, i + 1, i + 2);
      }
    }
  }

  lemma {:induction false} TextFlattens(tokens: seq<Token>, i: nat)
    requires i <= |tokens| && Signed(tokens)
    ensures FlattenAll(TextNodes(tokens, i)) == Slice(tokens, i, TextEnd(tokens, i))
    decreases |tokens| - i
  {
    if InlineAt(tokens, i) {
      var next := InlineEnd(tokens, i);
      InlineFlattens(tokens, i);
      TextFlattens(tokens, next);
      SlicesJoin(tokens, i, next, TextEnd(tokens, next));
      assert TextNodes(tokens, i)[1..] == TextNodes(tokens, next);
    }
  }

  lemma ElementFlattens(tokens: seq<Token>, i: nat)
    requires i < |tokens| && !tokens[i].Break? && Signed(tokens)
    ensures i < ElementEnd(tokens, i) <= |tokens| && Flatten(ElementNode(tokens, i)) == Slice(tokens, i, ElementEnd(tokens, i))
    ensures !ElementNode(tokens, i).Line?
  {
    if InlineAt(tokens, i) {
      TextFlattens(tokens, i);
    } else {
      assert StartsWithSign(tokens[i]);
      assert tokens[i].content == "@" + tokens[i].content[1..];
      SliceOne(tokens, i);
      if TextAt(tokens, i + 1) {
        TextFlattens(tokens, i + 1);
        SlicesJoin(tokens, i, i + 1, TextEnd(tokens, i + 1));
      } else {
        assert FlattenAll([]) == [];
      }
    }
  }

  lemma EmptyLineFlattens(node: Node)
    requires !node.Line?
    ensures Flatten(WithEmptyLine(node)) == Flatten(node) + [Text("")]
  {
    FlattenAppends(node.children, [Line("")]);
    assert FlattenAll([Line("")]) == [Text("")] + FlattenAll([]);
  }

  ghost predicate NoLines(nodes: seq<Node>) {
    forall i: nat :: i < |nodes| ==> !nodes[i].Line?
  }

  lemma LastOneGrows(before: seq<Node>)
    requires before != [] && NoLines(before)
    ensures !WithEmptyLine(before[|before| - 1]).Line?
    ensures FlattenAll(before[..|before| - 1] + [WithEmptyLine(before[|before| - 1])]) == FlattenAll(before) + [Text("")]
  {
    var k := |before| - 1;
    assert !WithEmptyLine(before[k]).Line?;
    hide Flatten, FlattenAll, WithEmptyLine;
    assert before == before[..k] + [before[k]];
    FlattenAppends(before[..k], [before[k]]);
    FlattenAppends(before[..k], [WithEmptyLine(before[k])]);
    Associates(FlattenAll(before[..k]), Flatten(before[k]), [Text("")]);
    OneFlattens(before[k]);
    OneFlattens(WithEmptyLine(before[k]));
    EmptyLineFlattens(before[k]);
  }

  /** The element that a break lengthens accounts for the break. */
  lemma BreakIsKept(tokens: seq<Token>, i: nat, before: seq<Node>)
    requires i < |tokens| && tokens[i].Break? && before != [] && NoLines(before)
    ensures var after := before[..|before| - 1] + [WithEmptyLine(before[|before| - 1])];
            && NoLines(after)
            && FlattenAll(after) + Slice(tokens, i + 1, |tokens|) == FlattenAll(before) + Slice(tokens, i, |tokens|)
  {
    hide Flatten, FlattenAll, Slice, WithEmptyLine;
    LastOneGrows(before);
    SliceOne(tokens, i);
    SlicesJoin(tokens, i, i + 1, |tokens|);
    Associates(FlattenAll(before), [Text("")], Slice(tokens, i + 1, |tokens|));
  }

  lemma ElementIsKept(tokens: seq<Token>, i: nat, before: seq<Node>)
    requires i < |tokens| && !tokens[i].Break? && Signed(tokens) && NoLines(before)
    ensures var next := ElementEnd(tokens, i);
            var after := before + [ElementNode(tokens, i)];
            && i < next <= |tokens| && NoLines(after)
            && FlattenAll(after) + Slice(tokens, next, |tokens|) == FlattenAll(before) + Slice(tokens, i, |tokens|)
  {
    hide Flatten, FlattenAll, Slice, ElementNode, ElementEnd, StartsWithSign;
    var next := ElementEnd(tokens, i);
    var node := ElementNode(tokens, i);
    ElementFlattens(tokens, i);
    Associates(FlattenAll(before), Flatten(node), Slice(tokens, next, |tokens|));
    FlattenAppends(before, [node]);
    OneFlattens(node);
    SlicesJoin(tokens, i, next, |tokens|);
  }

  /** With an element already there, every token from `i` on reappears once and in order. */
  lemma {:induction false} ElementsFlatten(tokens: seq<Token>, i: nat, before: seq<Node>)
    requires i <= |tokens| && Signed(tokens) && NoLines(before) && (before == [] && i < |tokens| ==> !tokens[i].Break?)
    ensures FlattenAll(Elements(tokens, i, before)) == FlattenAll(before) + Slice(tokens, i, |tokens|)
    decreases |tokens| - i
  {
    assert Slice(tokens, |tokens|, |tokens|) == [];
    hide FlattenAll, Slice, ElementNode, ElementEnd, WithEmptyLine, Signed, NoLines;
    if i < |tokens| {
      if tokens[i].Break? {
        BreakIsKept(tokens, i, before);
        ElementsFlatten(tokens, i + 1, before[..|before| - 1] + [WithEmptyLine(before[|before| - 1])]);
      } else {
        ElementIsKept(tokens, i, before);
        ElementsFlatten(tokens, ElementEnd(tokens, i), before + [ElementNode(tokens, i)]);
      }
    }
  }

  /** Flattening the parsed comment gives the tokens back, a break and an empty line being the same. */
  lemma CommentFlattens(tokens: seq<Token>)
    requires Shaped(tokens) && (tokens != [] ==> !tokens[0].Break?)
    ensures FlattenAll(Elements(tokens, 0, [])) == Slice(tokens, 0, |tokens|)
  {
    assert Signed(tokens) by {
      forall i: nat | i < |tokens|
        ensures StartsWithSign(tokens[i])
      {
        assert tokens[i] in tokens;
      }
    }
    ElementsFlatten(tokens, 0, []);
    assert FlattenAll([]) == [];
  }

  /** Nothing of a comment's tokens is dropped, whatever the lines. */
  lemma NoTokenIsLost(lines: seq<string>, markers: Markers)
    ensures FlattenAll(Elements(Tokens(lines, markers), 0, [])) == Slice(Tokens(lines, markers), 0, |Tokens(lines, markers)|)
  {
    hide Tokens, Shaped, Elements;
    TokenizeIsShaped(lines, markers);
    CommentFlattens(Tokens(lines, markers));
  }

  // The parser ------------------------------------------------------------------------

  class Parser {
    const tokens: seq<Token>
    var index: nat
    var elements: seq<Node>

    constructor (tokens: seq<Token>)
      ensures this.tokens == tokens && index == 0 && elements == []
    {
      this.tokens, index, elements := tokens, 0, [];
    }

    method ParseLine() returns (node: Node)
      requires TextAt(tokens, index)
      modifies this`index
      ensures node == Line(tokens[old(index)].content) && index == old(index) + 1
    {
      node := Line(tokens[index].content);
      index := index + 1;
    }

    method ParseInline() returns (node: Node)
      requires InlineAt(tokens, index)
      modifies this`index
      ensures node == InlineNode(tokens, old(index)) && index == InlineEnd(tokens, old(index))
      decreases |tokens| - index, 0
    {
      if tokens[index].InlineTag? {
        node := ParseTag(true);
      } else {
        node := ParseLine();
      }
    }

    method ParseText() returns (node: Node)
      requires InlineAt(tokens, index)
      modifies this`index
      ensures node == Paragraph(TextNodes(tokens, old(index))) && old(index) < index == TextEnd(tokens, old(index))
      decreases |tokens| - index, 1
    {
      hide InlineNode;
      var children: seq<Node> := [];
      while index < |tokens|
        invariant old(index) <= index <= |tokens| && (children != [] ==> old(index) < index)
        invariant TextEnd(tokens, old(index)) == TextEnd(tokens, index)
        invariant TextNodes(tokens, old(index)) == children + TextNodes(tokens, index)
        decreases |tokens| - index
      {
        if tokens[index].Break? || tokens[index].Tag? {
          break;
        }
        ghost var here := index;
        var child := ParseInline();
        assert children + ([child] + TextNodes(tokens, index)) == children + [child] + TextNodes(tokens, index);
        assert TextNodes(tokens, here) == [child] + TextNodes(tokens, index);
        children := children + [child];
      }
      node := Paragraph(children);
    }

    /** An inline tag takes one line, a block tag a whole paragraph. */
    method ParseTag(inlineTag: bool) returns (node: Node)
      requires index < |tokens| && (if inlineTag then tokens[index].InlineTag? else tokens[index].Tag?)
      modifies this`index
      ensures inlineTag ==> node == InlineNode(tokens, old(index)) && index == InlineEnd(tokens, old(index))
      ensures !inlineTag ==> node == ElementNode(tokens, old(index)) && index == ElementEnd(tokens, old(index))
      decreases |tokens| - index, if inlineTag then 0 else 2, 0
    {
      var content := tokens[index].content;
      var name := if content == "" then "" else content[1..];
      index := index + 1;
      if !TextAt(tokens, index) {
        return TagNode(name, inlineTag, []);
      }
      if inlineTag {
        var line := ParseLine();
        return TagNode(name, true, [line]);
      }
      var text := ParseText();
      return TagNode(name, false, text.children);
    }

    method AppendEmptyLine()
      modifies this`elements
      ensures elements == if old(elements) == [] then [] else
                old(elements)[..|old(elements)| - 1] + [WithEmptyLine(old(elements)[|old(elements)| - 1])]
    {
      if elements != [] {
        elements := elements[..|elements| - 1] + [WithEmptyLine(elements[|elements| - 1])];
      }
    }

    method ParseElement() returns (element: Option<Node>)
      requires index < |tokens|
      modifies this
      ensures old(index) < index
      ensures element.Some? ==>
                && !tokens[old(index)].Break? && element.value == ElementNode(tokens, old(index))
                && index == ElementEnd(tokens, old(index)) && elements == old(elements)
      ensures element.None? ==>
                && tokens[old(index)].Break? && index == old(index) + 1
                && elements == if old(elements) == [] then [] else
                     old(elements)[..|old(elements)| - 1] + [WithEmptyLine(old(elements)[|old(elements)| - 1])]
    {
      if tokens[index].Tag? {
        var node := ParseTag(false);
        return Some(node);
      }
      if tokens[index].Text? || tokens[index].InlineTag? {
        var node := ParseText();
        return Some(node);
      }
      AppendEmptyLine();
      index := index + 1;
      return None;
    }

    method ParseComment()
      requires index == 0 && elements == []
      modifies this
      ensures elements == Elements(tokens, 0, [])
    {
      while index < |tokens|
        invariant Elements(tokens, index, elements) == Elements(tokens, 0, [])
        decreases |tokens| - index
      {
        var element := ParseElement();
        if element.Some? {
          elements := elements + [element.value];
        }
      }
    }
  }

  /** From a comment's text to its elements. */
  method ParseDocComment(comment: string, markers: Markers) returns (elements: seq<Node>)
    ensures elements == Elements(Tokens(LinesOf(comment), markers), 0, [])
    ensures var tokens := Tokens(LinesOf(comment), markers); FlattenAll(elements) == Slice(tokens, 0, |tokens|)
  {
    hide Tokens, Shaped, Elements, LinesOf;
    var lines := GetLines(comment);
    var tokens := Tokenize(lines, markers);
    var parser := new Parser(tokens);
    parser.ParseComment();
    elements := parser.elements;
    NoTokenIsLost(lines, markers);
  }
}
