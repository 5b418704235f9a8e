/** Which operator is accepted when the text of one is the beginning of another. */
module InfixMaximalMunch {
  import opened Options
  import opened StrictContext
  import opened InfixRule

  /** Whether a character can be part of a word does not depend on its case. */
  ghost predicate CaseBlind(g: InfixGrammar) {
    forall c: char :: g.identifier(c) == g.identifier(ToLower(c))
  }

  /** Operator `j` is one literal, longer than `length`, and really matches at `p`. */
  predicate LongerOperatorAt(g: InfixGrammar, p: nat, length: nat, j: nat)
    requires j < |g.operators|
  {
    && g.operators[j].element.SingleLiteral?
    && |g.operators[j].element.text| > length
    && LiteralMatches(g, g.operators[j].element.text, g.operators[j].element.caseSensitive, p)
  }

  /** No longer operator matches where operator `i` does. */
  ghost predicate LongestAt(g: InfixGrammar, p: nat, i: nat)
    requires i < |g.operators| && g.operators[i].element.SingleLiteral?
  {
    !exists j: nat :: j < |g.operators| && LongerOperatorAt(g, p, |g.operators[i].element.text|, j)
  }

  /** The literal at `p` is spelled as declared. */
  predicate SpelledAsDeclared(g: InfixGrammar, p: nat, lit: string) {
    p + |lit| <= |g.text| && g.text[p..p + |lit|] == lit
  }

  /** A longer case-insensitive operator matches at `p` in a spelling other than the declared one. */
  ghost predicate RespelledLongerOperatorAt(g: InfixGrammar, p: nat, i: nat)
    requires i < |g.operators| && g.operators[i].element.SingleLiteral?
  {
    exists j: nat :: && j < |g.operators| && LongerOperatorAt(g, p, |g.operators[i].element.text|, j)
                     && !g.operators[j].element.caseSensitive && !SpelledAsDeclared(g, p, g.operators[j].element.text)
  }

  lemma SensitiveIsDeclaredSpelling(g: InfixGrammar, lit: string, p: nat)
    requires LettersAt(g, lit, true, p)
    ensures SpelledAsDeclared(g, p, lit)
  {
    assert forall k: nat :: k < |lit| ==> g.text[p..p + |lit|][k] == g.text[p + k] == lit[k];
  }

  /** The shadow test compares raw text, so an accepted literal operator is the longest match
      exactly when no longer case-insensitive operator is there in another spelling. */
  lemma AcceptedIsLongestIff(g: InfixGrammar, p: nat, i: nat)
    requires g.Valid() && i < |g.operators| && g.operators[i].element.SingleLiteral? && Usable(g, i, p)
    ensures LongestAt(g, p, i) <==> !RespelledLongerOperatorAt(g, p, i)
  {
    if !LongestAt(g, p, i) {
      var j: nat :| j < |g.operators| && LongerOperatorAt(g, p, |g.operators[i].element.text|, j);
      var lit := g.operators[j].element.text;
      if SpelledAsDeclared(g, p, lit) {
        assert LongerLiteralAt(g, p, |g.operators[i].element.text|, j);
        assert Shadowed(g, i, p);
        assert false;
      }
      if g.operators[j].element.caseSensitive {
        SensitiveIsDeclaredSpelling(g, lit, p);
      }
    }
  }

  /** With case-sensitive operators only, an accepted literal operator is always the longest. */
  lemma SensitiveOperatorsMunchMaximally(g: InfixGrammar, p: nat, i: nat)
    requires g.Valid() && i < |g.operators| && g.operators[i].element.SingleLiteral? && Usable(g, i, p)
    requires forall j: nat :: j < |g.operators| && g.operators[j].element.SingleLiteral? ==> g.operators[j].element.caseSensitive
    ensures LongestAt(g, p, i)
  {
    AcceptedIsLongestIff(g, p, i);
  }

  // ---- Which declarations munch maximally ----

  /** What a declaration says of an operator that is one literal. */
  datatype Literal = Literal(text: string, caseSensitive: bool)

  /** The single-literal operators of a rule, in declaration order; the others are blank. */
  type Declaration = seq<Option<Literal>>

  predicate ValidDeclaration(d: Declaration) {
    && d != []
    && forall i: nat :: i < |d| && d[i].Some? ==>
         && d[i].value.text != ""
         && (!d[i].value.caseSensitive ==> forall k: nat :: k < |d[i].value.text| ==> ToLower(d[i].value.text[k]) == d[i].value.text[k])
  }

  /** The rule's literal operators, and what can be part of a word, are the declared ones. */
  ghost predicate Declares(g: InfixGrammar, d: Declaration, identifier: char -> bool) {
    && g.Valid() && g.identifier == identifier && |g.operators| == |d|
    && forall i: nat :: i < |d| ==>
         if d[i].Some? then g.operators[i].element == SingleLiteral(d[i].value.text, d[i].value.caseSensitive)
         else g.operators[i].element.Composite?
  }

  /** Over every text, a literal operator that the rule accepts is the longest. */
  ghost predicate AlwaysMunches(d: Declaration, identifier: char -> bool) {
    forall g: InfixGrammar, p: nat, i: nat ::
      Declares(g, d, identifier) && i < |d| && d[i].Some? && SelectFrom(g, 0, p) == Some(i) ==> LongestAt(g, p, i)
  }

  predicate Spells(s: string, lit: string, caseSensitive: bool) {
    |lit| <= |s| && forall k: nat :: k < |lit| ==> CharMatches(s[k], lit[k], caseSensitive)
  }

  /** The literal matches at the start of the text `s`. */
  predicate Begins(identifier: char -> bool, l: Literal, s: string) {
    && Spells(s, l.text, l.caseSensitive)
    && !(WordLike(identifier, l.text) && |l.text| < |s| && identifier(s[|l.text|]))
  }

  /** Literal `k` is longer than literal `i`. */
  predicate Longer(d: Declaration, i: nat, k: nat)
    requires i < |d|
  {
    k < |d| && d[i].Some? && d[k].Some? && |d[k].value.text| > |d[i].value.text|
  }

  /** The spelling `s` of the longer, case-insensitive literal `j` also begins with literal `i`, but with no longer
      literal as declared, which would shadow `i`, and with no longer one declared before `i`, which would be accepted. */
  ghost predicate Escapes(d: Declaration, identifier: char -> bool, i: nat, j: nat, s: string)
    requires i < |d| && j < |d|
  {
    && Longer(d, i, j) && !d[j].value.caseSensitive && |s| == |d[j].value.text|
    && Begins(identifier, d[i].value, s) && Begins(identifier, d[j].value, s)
    && (forall k: nat :: Longer(d, i, k) ==> !(d[k].value.text <= s))
    && (forall k: nat :: k < i && Longer(d, i, k) ==> !Begins(identifier, d[k].value, s))
  }

  function ElementOf(l: Option<Literal>): OperatorElement {
    if l.Some? then SingleLiteral(l.value.text, l.value.caseSensitive)
    else Composite((_: nat) => false, (_: nat) => NoMatch, true)
  }

  /** A rule with the declared literals over the text `s`. */
  function RuleOver(d: Declaration, identifier: char -> bool, s: string): InfixGrammar {
    InfixGrammar(s,
                 seq(|d|, i requires 0 <= i < |d| => InfixOperator(Left, ElementOf(d[i]))),
                 (_: nat) => NoMatch, (p: nat) => p, Skipper((p: nat) => p, (_: nat) => []), identifier)
  }

  lemma RuleOverDeclares(d: Declaration, identifier: char -> bool, s: string)
    requires ValidDeclaration(d)
    ensures Declares(RuleOver(d, identifier, s), d, identifier)
  {
    var g := RuleOver(d, identifier, s);
    forall i: nat | i < |d|
      ensures g.operators[i].element == ElementOf(d[i]) && g.ValidOperator(g.operators[i].element)
    {
    }
  }

  lemma TextOfRule(d: Declaration, identifier: char -> bool, s: string)
    ensures RuleOver(d, identifier, s).text == s
  {
  }

  /** At the start of a rule's text, matching is beginning. */
  lemma BeginsIsMatching(d: Declaration, identifier: char -> bool, s: string, k: nat)
    requires ValidDeclaration(d) && k < |d|
    ensures var g := RuleOver(d, identifier, s);
            && k < |g.operators| && g.operators[k].element == ElementOf(d[k])
            && (OperatorMatch(g, k, 0).Match? <==> d[k].Some? && Begins(identifier, d[k].value, s))
  {
  }

  lemma EscapedIsUsable(d: Declaration, identifier: char -> bool, i: nat, j: nat, s: string)
    requires ValidDeclaration(d) && i < |d| && j < |d| && Escapes(d, identifier, i, j, s)
    ensures var g := RuleOver(d, identifier, s); i < |g.operators| && Usable(g, i, 0)
  {
    var g := RuleOver(d, identifier, s);
    TextOfRule(d, identifier, s);
    BeginsIsMatching(d, identifier, s, i);
    hide RuleOver, Begins, OperatorMatch;
    forall k: nat | k < |g.operators|
      ensures !LongerLiteralAt(g, 0, |d[i].value.text|, k)
    {
      BeginsIsMatching(d, identifier, s, k);
      assert Longer(d, i, k) ==> !(d[k].value.text <= s);
    }
  }

  /** A spelling that escapes is a text on which the rule accepts an operator shorter than one that matches. */
  lemma EscapeBreaksMunch(d: Declaration, identifier: char -> bool, i: nat, j: nat, s: string) returns (accepted: nat)
    requires ValidDeclaration(d) && i < |d| && j < |d| && Escapes(d, identifier, i, j, s)
    ensures var g := RuleOver(d, identifier, s);
            && Declares(g, d, identifier) && SelectFrom(g, 0, 0) == Some(accepted)
            && accepted <= i && d[accepted].Some? && LongerOperatorAt(g, 0, |d[accepted].value.text|, j)
    ensures !AlwaysMunches(d, identifier)
  {
    var g := RuleOver(d, identifier, s);
    RuleOverDeclares(d, identifier, s);
    EscapedIsUsable(d, identifier, i, j, s);
    hide InfixGrammar.Valid, RuleOver, Begins;
    accepted := SelectFrom(g, 0, 0).value;
    BeginsIsMatching(d, identifier, s, accepted);
    BeginsIsMatching(d, identifier, s, j);
    assert !(accepted < i && Longer(d, i, accepted));
    assert LongerOperatorAt(g, 0, |d[accepted].value.text|, j);
  }

  /** Matching at `p` and beginning the text from `p` on are the same but for the character behind it. */
  lemma SliceBegins(g: InfixGrammar, l: Literal, p: nat, n: nat)
    requires l.text != "" && p + n <= |g.text| && |l.text| <= n
    ensures LiteralMatches(g, l.text, l.caseSensitive, p) ==> Begins(g.identifier, l, g.text[p..p + n])
    ensures |l.text| < n && Begins(g.identifier, l, g.text[p..p + n]) ==> LiteralMatches(g, l.text, l.caseSensitive, p)
    ensures l.caseSensitive && |l.text| == n && Begins(g.identifier, l, g.text[p..p + n]) ==> g.text[p..p + n] == l.text
  {
    var s := g.text[p..p + n];
    assert forall k: nat :: k < n ==> s[k] == g.text[p + k];
  }

  /** An operator is shadowed where a longer one is spelled as declared. */
  lemma DeclaredSpellingShadows(g: InfixGrammar, d: Declaration, identifier: char -> bool, p: nat, i: nat, s: string, k: nat)
    requires Declares(g, d, identifier) && i < |d| && Longer(d, i, k)
    requires p + |s| <= |g.text| && s == g.text[p..p + |s|] && d[k].value.text <= s
    ensures Shadowed(g, i, p)
  {
    hide InfixGrammar.Valid;
    assert g.text[p..p + |d[k].value.text|] == s[..|d[k].value.text|];
    assert LongerLiteralAt(g, p, |d[i].value.text|, k);
  }

  /** Two case-insensitive literals of one length that spell the same text are the same. */
  lemma SameSpelling(a: string, b: string, s: string)
    requires |a| == |b| == |s| && Spells(s, a, false) && Spells(s, b, false)
    ensures a == b
  {
  }

  lemma ShadowCoversShorter(g: InfixGrammar, p: nat, i: nat, k: nat)
    requires i < |g.operators| && k < |g.operators| && g.operators[i].element.SingleLiteral? && g.operators[k].element.SingleLiteral?
    requires |g.operators[k].element.text| > |g.operators[i].element.text|
    ensures Shadowed(g, k, p) ==> Shadowed(g, i, p)
  {
    if Shadowed(g, k, p) {
      var x: nat :| x < |g.operators| && LongerLiteralAt(g, p, |g.operators[k].element.text|, x);
      assert LongerLiteralAt(g, p, |g.operators[i].element.text|, x);
    }
  }

  /** What is accepted has no longer operator before it that matches. */
  lemma EarlierLongerFails(g: InfixGrammar, d: Declaration, identifier: char -> bool, p: nat, i: nat, k: nat)
    requires Declares(g, d, identifier) && i < |d| && k < i && Longer(d, i, k) && SelectFrom(g, 0, p) == Some(i)
    ensures !LiteralMatches(g, d[k].value.text, d[k].value.caseSensitive, p)
  {
    hide InfixGrammar.Valid, LiteralMatches, Shadowed;
    assert g.operators[k].element == SingleLiteral(d[k].value.text, d[k].value.caseSensitive);
    assert g.operators[i].element == SingleLiteral(d[i].value.text, d[i].value.caseSensitive);
    assert !Usable(g, k, p) && Usable(g, i, p);
    ShadowCoversShorter(g, p, i, k);
  }

  lemma EarlierLongerDoesNotBegin(g: InfixGrammar, d: Declaration, identifier: char -> bool, p: nat, i: nat, j: nat, k: nat)
    requires Declares(g, d, identifier) && i < |d| && j < |d| && SelectFrom(g, 0, p) == Some(i)
    requires d[j].Some? && !d[j].value.caseSensitive && LiteralMatches(g, d[j].value.text, false, p)
    requires k < i && Longer(d, i, k)
    ensures !Begins(identifier, d[k].value, g.text[p..p + |d[j].value.text|])
  {
    var n := |d[j].value.text|;
    var s := g.text[p..p + n];
    EarlierLongerFails(g, d, identifier, p, i, k);
    assert g.ValidOperator(g.operators[j].element) && g.ValidOperator(g.operators[k].element);
    hide InfixGrammar.Valid, LiteralMatches, WordLike, LettersAt;
    if Begins(identifier, d[k].value, s) {
      SliceBegins(g, d[k].value, p, n);
      SliceBegins(g, d[j].value, p, n);
      if d[k].value.caseSensitive {
        DeclaredSpellingShadows(g, d, identifier, p, i, s, k);
      } else {
        SameSpelling(d[k].value.text, d[j].value.text, s);
      }
      assert false;
    }
  }

  lemma LongerSpellingEscapes(g: InfixGrammar, d: Declaration, identifier: char -> bool, p: nat, i: nat, j: nat)
    requires Declares(g, d, identifier) && i < |d| && j < |d| && SelectFrom(g, 0, p) == Some(i)
    requires Longer(d, i, j) && !d[j].value.caseSensitive && LiteralMatches(g, d[j].value.text, false, p)
    ensures p + |d[j].value.text| <= |g.text| && Escapes(d, identifier, i, j, g.text[p..p + |d[j].value.text|])
  {
    var s := g.text[p..p + |d[j].value.text|];
    assert g.operators[i].element == SingleLiteral(d[i].value.text, d[i].value.caseSensitive);
    assert g.operators[j].element == SingleLiteral(d[j].value.text, false);
    assert g.ValidOperator(g.operators[j].element) && g.ValidOperator(g.operators[i].element);
    hide InfixGrammar.Valid, Shadowed, Begins, LiteralMatches;
    SliceBegins(g, d[i].value, p, |s|);
    SliceBegins(g, d[j].value, p, |s|);
    forall k: nat | Longer(d, i, k)
      ensures !(d[k].value.text <= s) && (k < i ==> !Begins(identifier, d[k].value, s))
    {
      if d[k].value.text <= s {
        DeclaredSpellingShadows(g, d, identifier, p, i, s, k);
      }
      if k < i {
        EarlierLongerDoesNotBegin(g, d, identifier, p, i, j, k);
      }
    }
  }

  /** Where the accepted operator is not the longest, the longer one is spelled in a way that escapes. */
  lemma BrokenMunchEscapes(g: InfixGrammar, d: Declaration, identifier: char -> bool, p: nat, i: nat) returns (j: nat, s: string)
    requires Declares(g, d, identifier) && i < |d| && d[i].Some? && SelectFrom(g, 0, p) == Some(i) && !LongestAt(g, p, i)
    ensures j < |d| && Escapes(d, identifier, i, j, s)
  {
    assert g.operators[i].element == SingleLiteral(d[i].value.text, d[i].value.caseSensitive);
    AcceptedIsLongestIff(g, p, i);
    hide InfixGrammar.Valid, Usable, LiteralMatches, Escapes;
    j :| j < |g.operators| && LongerOperatorAt(g, p, |g.operators[i].element.text|, j)
         && !g.operators[j].element.caseSensitive && !SpelledAsDeclared(g, p, g.operators[j].element.text);
    assert d[j].Some? && g.operators[j].element == SingleLiteral(d[j].value.text, false);
    LongerSpellingEscapes(g, d, identifier, p, i, j);
    s := g.text[p..p + |d[j].value.text|];
  }

  /** The declared literals alone decide: on every text the rule accepts the longest operator if and only if no spelling escapes. */
  lemma MunchesMaximallyIff(d: Declaration, identifier: char -> bool)
    requires ValidDeclaration(d)
    ensures AlwaysMunches(d, identifier) <==> !exists i: nat, j: nat, s: string :: i < |d| && j < |d| && Escapes(d, identifier, i, j, s)
  {
    hide Escapes, ValidDeclaration, InfixGrammar.Valid, Usable, LongestAt, SelectFrom;
    if i: nat, j: nat, s: string :| i < |d| && j < |d| && Escapes(d, identifier, i, j, s) {
      var accepted := EscapeBreaksMunch(d, identifier, i, j, s);
    } else if !AlwaysMunches(d, identifier) {
      var g: InfixGrammar, p: nat, i: nat :|
        Declares(g, d, identifier) && i < |d| && d[i].Some? && SelectFrom(g, 0, p) == Some(i) && !LongestAt(g, p, i);
      var j, s := BrokenMunchEscapes(g, d, identifier, p, i);
    }
  }

  const EQUALS := Literal("=", true)
  const EQUALS_A := Literal("=a", false)

  const LONG_FIRST: Declaration := [Some(EQUALS_A), Some(EQUALS)]
  const SHORT_FIRST: Declaration := [Some(EQUALS), Some(EQUALS_A)]

  lemma LongFirstNeverEscapes(identifier: char -> bool, i: nat, j: nat, s: string)
    requires i < 2 && j < 2
    ensures !Escapes(LONG_FIRST, identifier, i, j, s)
  {
    assert Longer(LONG_FIRST, 1, 0) && !Longer(LONG_FIRST, 0, 1) && !Longer(LONG_FIRST, 0, 0) && !Longer(LONG_FIRST, 1, 1);
    hide Begins;
  }

  lemma ShortFirstEscapes(identifier: char -> bool)
    requires !identifier('=')
    ensures Escapes(SHORT_FIRST, identifier, 0, 1, "=A")
  {
    assert !WordLike(identifier, "=") && !WordLike(identifier, "=a") by { assert "="[0] == '=' == "=a"[0]; }
    assert Spells("=A", "=", true) && Spells("=A", "=a", false);
    assert !("=a" <= "=A") by { assert "=a"[1] != "=A"[1]; }
  }

  /** The order of declaration matters: with the longer operator first every text munches maximally,
      with the shorter one first `=A` does not, provided `=` is not part of a word. */
  lemma DeclarationOrderMatters(identifier: char -> bool)
    ensures AlwaysMunches(LONG_FIRST, identifier)
    ensures !identifier('=') ==> !AlwaysMunches(SHORT_FIRST, identifier)
  {
    assert ValidDeclaration(LONG_FIRST) && ValidDeclaration(SHORT_FIRST);
    hide AlwaysMunches, Escapes, ValidDeclaration;
    MunchesMaximallyIff(LONG_FIRST, identifier);
    forall i: nat, j: nat, s: string | i < 2 && j < 2
      ensures !Escapes(LONG_FIRST, identifier, i, j, s)
    {
      LongFirstNeverEscapes(identifier, i, j, s);
    }
    if !identifier('=') {
      ShortFirstEscapes(identifier);
      var accepted := EscapeBreaksMunch(SHORT_FIRST, identifier, 0, 1, "=A");
    }
  }

  /** Operators `=` and a case-insensitive `=a`, declared in that order, over the text `=A`. */
  function RespelledExample(): InfixGrammar {
    InfixGrammar("=A",
                 [InfixOperator(Left, SingleLiteral("=", true)), InfixOperator(Left, SingleLiteral("=a", false))],
                 (_: nat) => NoMatch, (p: nat) => p, Skipper((p: nat) => p, (_: nat) => []),
                 c => 'a' <= ToLower(c) <= 'z')
  }

  /** There `=` is the accepted operator although `=a` matches. */
  lemma MaximalMunchFailsOnRespelling()
    ensures var g := RespelledExample();
            && g.Valid() && SelectFrom(g, 0, 0) == Some(0)
            && LongerOperatorAt(g, 0, 1, 1) && !LongestAt(g, 0, 0)
  {
    var g := RespelledExample();
    assert g.text[0..2] == "=A";
    assert "=A" != "=a" by { assert "=A"[1] != "=a"[1]; }
    assert ToLower('A') == 'a';
    assert LettersAt(g, "=", true, 0) && LettersAt(g, "=a", false, 0);
    assert !WordLike(g.identifier, "=") by { assert !g.identifier("="[0]); }
    assert !LongerLiteralAt(g, 0, 1, 0) && !LongerLiteralAt(g, 0, 1, 1);
    assert Usable(g, 0, 0);
    assert LongerOperatorAt(g, 0, 1, 1);
  }

  // ---- Yielding is never wasted ----

  /** An operator that yields does so to a longer operator that really matches there. */
  lemma ShadowerMatches(g: InfixGrammar, p: nat, i: nat, j: nat)
    requires g.Valid() && CaseBlind(g) && i < |g.operators| && j < |g.operators|
    requires g.operators[i].element.SingleLiteral? && OperatorMatch(g, i, p).Match?
    requires LongerLiteralAt(g, p, |g.operators[i].element.text|, j)
    ensures LongerOperatorAt(g, p, |g.operators[i].element.text|, j)
  {
    var short, long := g.operators[i].element.text, g.operators[j].element.text;
    assert g.ValidOperator(g.operators[j].element) && g.ValidOperator(g.operators[i].element);
    forall k: nat | k < |long|
      ensures g.text[p + k] == long[k]
    {
      assert g.text[p..p + |long|][k] == long[k];
    }
    if WordLike(g.identifier, long) {
      // the character after the short operator is the next letter of the long one
      assert g.identifier(g.text[p + |short|]);
      forall k: nat | k < |short|
        ensures g.identifier(short[k])
      {
        assert CharMatches(g.text[p + k], short[k], g.operators[i].element.caseSensitive);
        assert g.identifier(long[k]);
      }
      assert WordLike(g.identifier, short);
    }
  }

  /** When a literal operator matches somewhere, some operator is accepted there. */
  lemma SomeOperatorIsAccepted(g: InfixGrammar, p: nat, i: nat)
    requires g.Valid() && CaseBlind(g) && p <= |g.text| && i < |g.operators|
    requires g.operators[i].element.SingleLiteral? && OperatorMatch(g, i, p).Match?
    ensures SelectFrom(g, 0, p).Some?
    decreases |g.text| - |g.operators[i].element.text|
  {
    if Shadowed(g, i, p) {
      var j: nat :| j < |g.operators| && LongerLiteralAt(g, p, |g.operators[i].element.text|, j);
      ShadowerMatches(g, p, i, j);
      SomeOperatorIsAccepted(g, p, j);
    } else {
      assert Usable(g, i, p);
    }
  }
}
