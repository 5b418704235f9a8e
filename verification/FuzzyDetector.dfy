/** The linear detector of a single edit, against edits and against the matrix. */
module FuzzyDetector {
  import opened FuzzyScript

  /** `n` codepoints of `a` from `i` on equal those of `b` from `j` on. */
  predicate Run(a: Text, i: nat, b: Text, j: nat, n: nat, caseSensitive: bool) {
    i + n <= |a| && j + n <= |b| && forall x: nat :: i <= x < i + n ==> Same(a[x], b[x - i + j], caseSensitive)
  }

  lemma RunAt(a: Text, i: nat, b: Text, j: nat, n: nat, caseSensitive: bool, x: nat)
    requires Run(a, i, b, j, n, caseSensitive) && x < n
    ensures Same(a[i + x], b[j + x], caseSensitive)
  {
    assert Same(a[i + x], b[i + x - i + j], caseSensitive);
  }

  lemma RunGrows(a: Text, i: nat, b: Text, j: nat, n: nat, caseSensitive: bool)
    requires Run(a, i, b, j, n, caseSensitive) && i + n < |a| && j + n < |b|
    ensures Run(a, i, b, j, n + 1, caseSensitive) <==> Same(a[i + n], b[j + n], caseSensitive)
  {
    if Run(a, i, b, j, n + 1, caseSensitive) {
      assert Same(a[i + n], b[i + n - i + j], caseSensitive);
    }
  }

  /** The first `m` codepoints of `a` equal the first `k` of `b`. */
  predicate EqualText(a: Text, m: nat, b: Text, k: nat, caseSensitive: bool) {
    m == k && Run(a, 0, b, 0, m, caseSensitive)
  }

  /** The first `k` codepoints of `b` are the first `m` of `a` with the one edit `e` at `p`. */
  predicate OneEditAt(a: Text, m: nat, b: Text, k: nat, caseSensitive: bool, e: Edit, p: nat) {
    && !e.Keep? && m <= |a| && k <= |b|
    && p + LiteralSpan(e) <= m && p + InputSpan(e) <= k && m - LiteralSpan(e) == k - InputSpan(e)
    && Run(a, 0, b, 0, p, caseSensitive)
    && Run(a, p + LiteralSpan(e), b, p + InputSpan(e), m - p - LiteralSpan(e), caseSensitive)
    && (e.Transpose? ==> Same(a[p], b[p + 1], caseSensitive) && Same(a[p + 1], b[p], caseSensitive))
  }

  /** The first `k` codepoints of `b` differ from `a`, and one edit explains the difference. */
  ghost predicate OneEdit(a: Text, b: Text, k: nat, caseSensitive: bool) {
    !EqualText(a, |a|, b, k, caseSensitive) && exists e: Edit, p: nat :: OneEditAt(a, |a|, b, k, caseSensitive, e, p)
  }

  /** The longest common prefix of length at most `most`. */
  method CommonPrefix(a: Text, b: Text, caseSensitive: bool, most: nat) returns (p: nat)
    requires most <= |a| && most <= |b|
    ensures p <= most && Run(a, 0, b, 0, p, caseSensitive)
    ensures p < most ==> !Same(a[p], b[p], caseSensitive)
  {
    p := 0;
    while p < most && Same(a[p], b[p], caseSensitive)
      invariant p <= most && Run(a, 0, b, 0, p, caseSensitive)
    {
      p := p + 1;
    }
  }

  /** The longest common suffix of `a` and the first `k` of `b`, of length at most `most`. */
  method CommonSuffix(a: Text, b: Text, k: nat, caseSensitive: bool, most: nat) returns (s: nat)
    requires k <= |b| && most <= |a| && most <= k
    ensures s <= most && Run(a, |a| - s, b, k - s, s, caseSensitive)
    ensures s < most ==> !Same(a[|a| - 1 - s], b[k - 1 - s], caseSensitive)
  {
    s := 0;
    while s < most && Same(a[|a| - 1 - s], b[k - 1 - s], caseSensitive)
      invariant s <= most && Run(a, |a| - s, b, k - s, s, caseSensitive)
    {
      s := s + 1;
    }
  }

  /** Nothing could be added to the common prefix, nor then to the common suffix. */
  ghost predicate Greedy(a: Text, b: Text, k: nat, caseSensitive: bool, p: nat, s: nat) {
    && k <= |b| && p + s <= |a| && p + s <= k
    && Run(a, 0, b, 0, p, caseSensitive)
    && (p < |a| && p < k ==> !Same(a[p], b[p], caseSensitive))
    && Run(a, |a| - s, b, k - s, s, caseSensitive)
    && (p + s < |a| && p + s < k ==> !Same(a[|a| - 1 - s], b[k - 1 - s], caseSensitive))
  }

  /** What the walk answers once the common prefix and suffix are known. */
  predicate Verdict(a: Text, b: Text, k: nat, caseSensitive: bool, p: nat, s: nat)
    requires k <= |b| && p + s <= |a| && p + s <= k
  {
    var aRest, bRest := |a| - p - s, k - p - s;
    || (k == |a| && aRest == 1 && bRest == 1)
    || (k == |a| + 1 && aRest == 0 && bRest == 1)
    || (k + 1 == |a| && aRest == 1 && bRest == 0)
    || (k == |a| && aRest == 2 && bRest == 2
        && Same(a[p], b[p + 1], caseSensitive) && Same(a[p + 1], b[p], caseSensitive))
  }

  lemma VerdictIsSound(a: Text, b: Text, k: nat, caseSensitive: bool, p: nat, s: nat)
    requires Greedy(a, b, k, caseSensitive, p, s) && Verdict(a, b, k, caseSensitive, p, s)
    ensures OneEdit(a, b, k, caseSensitive)
  {
    var aRest, bRest := |a| - p - s, k - p - s;
    var e := if aRest == 2 then Transpose else if aRest == bRest then Substitute else if aRest == 0 then DeleteUnexpected else InsertMissing;
    assert OneEditAt(a, |a|, b, k, caseSensitive, e, p);
    if k == |a| {
      assert !Same(a[p], b[p - 0 + 0], caseSensitive);
    }
  }

  /** Where a substitution or transposition covers one equal codepoint, it changed nothing at all. */
  lemma EqualAtEdit(a: Text, b: Text, k: nat, caseSensitive: bool, e: Edit, q: nat, x: nat)
    requires OneEditAt(a, |a|, b, k, caseSensitive, e, q)
    requires (e.Substitute? || e.Transpose?) && q <= x < q + LiteralSpan(e) && Same(a[x], b[x], caseSensitive)
    ensures EqualText(a, |a|, b, k, caseSensitive)
  {
    forall y: nat | y < |a|
      ensures Same(a[y], b[y], caseSensitive)
    {
      if y < q {
        RunAt(a, 0, b, 0, q, caseSensitive, y);
      } else if y >= q + LiteralSpan(e) {
        RunAt(a, q + LiteralSpan(e), b, q + InputSpan(e), |a| - q - LiteralSpan(e), caseSensitive, y - q - LiteralSpan(e));
      }
    }
  }

  /** A suffix that has not reached the edit yet can be extended. */
  lemma SuffixContinues(a: Text, b: Text, k: nat, caseSensitive: bool, e: Edit, q: nat, s: nat)
    requires OneEditAt(a, |a|, b, k, caseSensitive, e, q) && s < |a| - q - LiteralSpan(e)
    ensures s < |a| && s < k && Same(a[|a| - 1 - s], b[k - 1 - s], caseSensitive)
  {
    RunAt(a, q + LiteralSpan(e), b, q + InputSpan(e), |a| - q - LiteralSpan(e), caseSensitive, |a| - 1 - s - q - LiteralSpan(e));
  }

  /** Greedy prefix then greedy suffix loses no edit. */
  lemma VerdictIsComplete(a: Text, b: Text, k: nat, caseSensitive: bool, p: nat, s: nat, e: Edit, q: nat)
    requires Greedy(a, b, k, caseSensitive, p, s)
    requires !EqualText(a, |a|, b, k, caseSensitive) && OneEditAt(a, |a|, b, k, caseSensitive, e, q)
    ensures Verdict(a, b, k, caseSensitive, p, s)
  {
    hide Same;
    var after := |a| - q - LiteralSpan(e);
    assert p >= q;
    if s < after {
      SuffixContinues(a, b, k, caseSensitive, e, q, s);
    }
    if e.Substitute? || e.Transpose? {
      var last := q + LiteralSpan(e) - 1;
      if Same(a[q], b[q], caseSensitive) {
        EqualAtEdit(a, b, k, caseSensitive, e, q, q);
      } else if Same(a[last], b[last], caseSensitive) {
        EqualAtEdit(a, b, k, caseSensitive, e, q, last);
      }
    }
  }

  method TryAlignment(a: Text, b: Text, k: nat, caseSensitive: bool) returns (r: bool)
    requires k <= |b|
    ensures r <==> OneEdit(a, b, k, caseSensitive)
  {
    hide Verdict, OneEditAt;
    var most := if |a| < k then |a| else k;
    var p := CommonPrefix(a, b, caseSensitive, most);
    var s := CommonSuffix(a, b, k, caseSensitive, most - p);
    r := Verdict(a, b, k, caseSensitive, p, s);
    if r {
      VerdictIsSound(a, b, k, caseSensitive, p, s);
    } else if OneEdit(a, b, k, caseSensitive) {
      var e, q: nat :| OneEditAt(a, |a|, b, k, caseSensitive, e, q);
      VerdictIsComplete(a, b, k, caseSensitive, p, s, e, q);
    }
  }

  // ---- In plain terms ----

  /** Edit `e` at `p` makes `b` out of `a`. */
  predicate Makes(a: Text, b: Text, e: Edit, p: nat) {
    match e
    case Keep => false
    case Substitute => |a| == |b| && p < |a| && a[p := b[p]] == b
    case InsertMissing => p < |a| && a[..p] + a[p + 1..] == b
    case DeleteUnexpected => p < |b| && b[..p] + b[p + 1..] == a
    case Transpose => p + 1 < |a| && a[p := a[p + 1]][p + 1 := a[p]] == b
  }

  ghost predicate PlainEdit(a: Text, b: Text) {
    a != b && exists e: Edit, p: nat :: Makes(a, b, e, p)
  }

  lemma {:induction false} EqualSlices(u: Text, v: Text, i: nat, j: nat, n: nat)
    requires i + n <= |u| && j + n <= |v| && forall x: nat :: i <= x < i + n ==> u[x] == v[x - i + j]
    ensures u[i..i + n] == v[j..j + n]
  {
    if n > 0 {
      EqualSlices(u, v, i, j, n - 1);
      assert u[i..i + n] == u[i..i + (n - 1)] + [u[i + (n - 1)]];
      assert v[j..j + n] == v[j..j + (n - 1)] + [v[i + (n - 1) - i + j]];
    }
  }

  /** A run is two equal slices. */
  lemma RunIsSlice(a: Text, i: nat, b: Text, j: nat, n: nat, caseSensitive: bool)
    requires i + n <= |a| && j + n <= |b|
    ensures Run(a, i, b, j, n, caseSensitive) <==> Cased(a, caseSensitive)[i..i + n] == Cased(b, caseSensitive)[j..j + n]
  {
    hide Cased, Same;
    var u, v := Cased(a, caseSensitive), Cased(b, caseSensitive);
    if Run(a, i, b, j, n, caseSensitive) {
      forall x: nat | i <= x < i + n
        ensures u[x] == v[x - i + j]
      {
        CasedAgrees(a, b, x, x - i + j, caseSensitive);
      }
      EqualSlices(u, v, i, j, n);
    }
    if u[i..i + n] == v[j..j + n] {
      forall x: nat | i <= x < i + n
        ensures Same(a[x], b[x - i + j], caseSensitive)
      {
        assert u[i..i + n][x - i] == v[j..j + n][x - i];
        CasedAgrees(a, b, x, x - i + j, caseSensitive);
      }
    }
  }

  /** The edit in terms of slices. */
  predicate Aligned(u: Text, v: Text, e: Edit, p: nat) {
    && !e.Keep? && p + LiteralSpan(e) <= |u| && p + InputSpan(e) <= |v| && |u| - LiteralSpan(e) == |v| - InputSpan(e)
    && u[..p] == v[..p] && u[p + LiteralSpan(e)..] == v[p + InputSpan(e)..]
    && (e.Transpose? ==> u[p] == v[p + 1] && u[p + 1] == v[p])
  }

  lemma PrefixIsSlice(a: Text, b: Text, k: nat, caseSensitive: bool, p: nat)
    requires k <= |b| && p <= |a| && p <= k
    ensures Run(a, 0, b, 0, p, caseSensitive) <==> Cased(a, caseSensitive)[..p] == Cased(b, caseSensitive)[..k][..p]
  {
    hide Cased, Run;
    var u, v := Cased(a, caseSensitive), Cased(b, caseSensitive);
    RunIsSlice(a, 0, b, 0, p, caseSensitive);
    assert u[0..0 + p] == u[..p] && v[0..0 + p] == v[..k][..p];
  }

  lemma SuffixIsSlice(a: Text, b: Text, k: nat, caseSensitive: bool, i: nat, j: nat)
    requires k <= |b| && i <= |a| && j <= k && |a| - i == k - j
    ensures Run(a, i, b, j, |a| - i, caseSensitive) <==> Cased(a, caseSensitive)[i..] == Cased(b, caseSensitive)[..k][j..]
  {
    hide Cased, Run;
    var u, v := Cased(a, caseSensitive), Cased(b, caseSensitive);
    RunIsSlice(a, i, b, j, |a| - i, caseSensitive);
    assert u[i..i + (|a| - i)] == u[i..] && v[j..j + (|a| - i)] == v[..k][j..];
  }

  lemma EditIsAligned(a: Text, b: Text, k: nat, caseSensitive: bool, e: Edit, p: nat)
    requires k <= |b|
    ensures OneEditAt(a, |a|, b, k, caseSensitive, e, p) <==> Aligned(Cased(a, caseSensitive), Cased(b, caseSensitive)[..k], e, p)
  {
    hide Cased, Same, Run;
    var i, j := p + LiteralSpan(e), p + InputSpan(e);
    if !e.Keep? && i <= |a| && j <= k && |a| - LiteralSpan(e) == k - InputSpan(e) {
      PrefixIsSlice(a, b, k, caseSensitive, p);
      SuffixIsSlice(a, b, k, caseSensitive, i, j);
      if e.Transpose? {
        CasedAgrees(a, b, p, p + 1, caseSensitive);
        CasedAgrees(a, b, p + 1, p, caseSensitive);
      }
    }
  }

  lemma SubstitutionSlices(u: Text, v: Text, p: nat)
    ensures |u| == |v| && p < |u| ==> (u[p := v[p]] == v <==> u[..p] == v[..p] && u[p + 1..] == v[p + 1..])
  {
    if |u| == |v| && p < |u| {
      assert u[p := v[p]] == u[..p] + [v[p]] + u[p + 1..];
      assert v == v[..p] + [v[p]] + v[p + 1..];
    }
  }

  lemma OmissionSlices(u: Text, v: Text, p: nat)
    ensures p < |u| ==> (u[..p] + u[p + 1..] == v <==> |v| + 1 == |u| && u[..p] == v[..p] && u[p + 1..] == v[p..])
  {
    if p < |u| && |v| + 1 == |u| {
      assert v == v[..p] + v[p..];
    }
  }

  lemma TranspositionSlices(u: Text, v: Text, p: nat)
    ensures p + 1 < |u| ==>
              (u[p := u[p + 1]][p + 1 := u[p]] == v <==>
                 |u| == |v| && u[..p] == v[..p] && u[p + 2..] == v[p + 2..] && u[p] == v[p + 1] && u[p + 1] == v[p])
  {
    if p + 1 < |u| && |u| == |v| {
      assert u[p := u[p + 1]][p + 1 := u[p]] == u[..p] + [u[p + 1], u[p]] + u[p + 2..];
      assert v == v[..p] + [v[p], v[p + 1]] + v[p + 2..];
    }
  }

  lemma AlignedMakes(u: Text, v: Text, e: Edit, p: nat)
    ensures Makes(u, v, e, p) <==> Aligned(u, v, e, p)
  {
    match e
    case Keep =>
    case Substitute => SubstitutionSlices(u, v, p);
    case InsertMissing => OmissionSlices(u, v, p);
    case DeleteUnexpected => OmissionSlices(v, u, p);
    case Transpose => TranspositionSlices(u, v, p);
  }

  /** One edit is one edit of the texts as they are compared. */
  lemma OneEditIsPlain(a: Text, b: Text, k: nat, caseSensitive: bool)
    requires k <= |b|
    ensures OneEdit(a, b, k, caseSensitive) <==> PlainEdit(Cased(a, caseSensitive), Cased(b, caseSensitive)[..k])
    ensures EqualText(a, |a|, b, k, caseSensitive) <==> Cased(a, caseSensitive) == Cased(b, caseSensitive)[..k]
  {
    var u, v := Cased(a, caseSensitive), Cased(b, caseSensitive);
    if |a| == k {
      RunIsSlice(a, 0, b, 0, k, caseSensitive);
      assert u[0..0 + k] == u && v[0..0 + k] == v[..k];
    }
    hide Cased, Same, Run, OneEditAt, Makes, Aligned;
    forall e: Edit, p: nat
      ensures OneEditAt(a, |a|, b, k, caseSensitive, e, p) <==> Makes(u, v[..k], e, p)
    {
      EditIsAligned(a, b, k, caseSensitive, e, p);
      AlignedMakes(u, v[..k], e, p);
    }
  }

  /** Some prefix of the window is one edit away from the literal, as the texts are compared. */
  ghost predicate OnePlainEditAway(literal: Text, window: Text) {
    literal != [] && exists k: nat :: k <= |window| && PlainEdit(literal, window[..k])
  }

  lemma PlainlyDetected(literal: Text, window: Text, caseSensitive: bool)
    ensures literal != [] && (exists k: nat :: k <= |window| && OneEdit(literal, window, k, caseSensitive)) <==>
            OnePlainEditAway(Cased(literal, caseSensitive), Cased(window, caseSensitive))
  {
    hide OneEdit, PlainEdit, Cased;
    forall k: nat | k <= |window|
      ensures OneEdit(literal, window, k, caseSensitive) <==> PlainEdit(Cased(literal, caseSensitive), Cased(window, caseSensitive)[..k])
    {
      OneEditIsPlain(literal, window, k, caseSensitive);
    }
  }

  /** True exactly when some prefix of the window is one edit away from the literal. */
  method SingleEditMatch(literal: Text, window: Text, caseSensitive: bool) returns (r: bool)
    ensures r <==> literal != [] && exists k: nat :: k <= |window| && OneEdit(literal, window, k, caseSensitive)
    ensures r <==> OnePlainEditAway(Cased(literal, caseSensitive), Cased(window, caseSensitive))
  {
    PlainlyDetected(literal, window, caseSensitive);
    hide OnePlainEditAway, Cased;
    var n, w := |literal|, |window|;
    if n == 0 {
      return false;
    }
    if n <= w {
      r := TryAlignment(literal, window, n, caseSensitive);
      if r { return true; }
    }
    if w >= n + 1 {
      r := TryAlignment(literal, window, n + 1, caseSensitive);
      if r { return true; }
    }
    if w + 1 >= n {
      r := TryAlignment(literal, window, n - 1, caseSensitive);
      if r { return true; }
    }
    return false;
  }

  // ---- The detector and the matrix agree ----

  function Keeps(n: nat): (s: seq<Edit>)
    ensures |s| == n && forall k: nat :: k < n ==> s[k] == Keep
  {
    seq(n, _ => Keep)
  }

  /** Equal stretches extend a script for free. */
  lemma {:induction false} KeepsExtend(l: Text, t: Text, caseSensitive: bool, i: nat, j: nat, n: nat, s: seq<Edit>)
    requires i <= |l| && j <= |t| && Turns(l, t, caseSensitive, AnyEdit, i, j, s) && Run(l, i, t, j, n, caseSensitive)
    ensures Turns(l, t, caseSensitive, AnyEdit, i + n, j + n, s + Keeps(n)) && ScriptCost(s + Keeps(n)) == ScriptCost(s)
    decreases n
  {
    hide Turns, ScriptCost, Same;
    if n == 0 {
      assert s + Keeps(0) == s;
    } else {
      KeepsExtend(l, t, caseSensitive, i, j, n - 1, s);
      assert s + Keeps(n) == s + Keeps(n - 1) + [Keep];
      RunAt(l, i, t, j, n, caseSensitive, n - 1);
      SnocScript(l, t, caseSensitive, AnyEdit, i + n, j + n, s + Keeps(n - 1), Keep);
    }
  }

  lemma EmptyScript(l: Text, t: Text, caseSensitive: bool)
    ensures Turns(l, t, caseSensitive, AnyEdit, 0, 0, []) && ScriptCost([]) == Cost(0, 0)
  {}

  /** What an edit at `p` says: equal before it, fitting at it, equal after it. */
  lemma EditPieces(l: Text, t: Text, k: nat, caseSensitive: bool, e: Edit, p: nat) returns (n: nat)
    requires OneEditAt(l, |l|, t, k, caseSensitive, e, p)
    ensures p + LiteralSpan(e) + n == |l| && p + InputSpan(e) + n == k <= |t|
    ensures Run(l, 0, t, 0, p, caseSensitive)
    ensures Fits(l, t, caseSensitive, p + LiteralSpan(e), p + InputSpan(e), e)
    ensures Run(l, p + LiteralSpan(e), t, p + InputSpan(e), n, caseSensitive)
    ensures e != Keep
  {
    hide Run;
    n := |l| - p - LiteralSpan(e);
  }

  /** One edit gives a script of one operation and that edit's weight. */
  lemma OneEditScript(l: Text, t: Text, k: nat, caseSensitive: bool, e: Edit, p: nat) returns (s: seq<Edit>)
    requires OneEditAt(l, |l|, t, k, caseSensitive, e, p)
    ensures k <= |t| && Turns(l, t, caseSensitive, AnyEdit, |l|, k, s) && ScriptCost(s) == EditCost(e)
  {
    hide Turns, ScriptCost, Same, Run, OneEditAt, Fits, LiteralSpan, InputSpan, EditCost, Keeps;
    var n := EditPieces(l, t, k, caseSensitive, e, p);
    EmptyScript(l, t, caseSensitive);
    KeepsExtend(l, t, caseSensitive, 0, 0, p, []);
    SnocScript(l, t, caseSensitive, AnyEdit, p + LiteralSpan(e), p + InputSpan(e), [] + Keeps(p), e);
    s := [] + Keeps(p) + [e];
    KeepsExtend(l, t, caseSensitive, p + LiteralSpan(e), p + InputSpan(e), n, s);
    s := s + Keeps(n);
  }

  lemma UnsnocScript(l: Text, t: Text, caseSensitive: bool, lane: Lane, i: nat, j: nat, s: seq<Edit>)
    requires i <= |l| && j <= |t| && Turns(l, t, caseSensitive, lane, i, j, s) && s != []
    ensures Fits(l, t, caseSensitive, i, j, Last(s))
    ensures Turns(l, t, caseSensitive, lane, i - LiteralSpan(Last(s)), j - InputSpan(Last(s)), Init(s))
    ensures ScriptCost(s).operations == ScriptCost(Init(s)).operations + (if Last(s) == Keep then 0 else 1)
  {}

  lemma EmptyRun(a: Text, i: nat, b: Text, j: nat, caseSensitive: bool)
    requires i <= |a| && j <= |b|
    ensures Run(a, i, b, j, 0, caseSensitive)
  {}

  /** A script without operations only keeps. */
  lemma {:induction false} FreeScriptKeeps(l: Text, t: Text, caseSensitive: bool, i: nat, j: nat, s: seq<Edit>)
    requires i <= |l| && j <= |t| && Turns(l, t, caseSensitive, AnyEdit, i, j, s) && ScriptCost(s).operations == 0
    ensures i == j && Run(l, 0, t, 0, i, caseSensitive)
    decreases |s|
  {
    if s == [] {
      EmptyRun(l, 0, t, 0, caseSensitive);
    } else {
      hide Same, Run, Turns, ScriptCost;
      UnsnocScript(l, t, caseSensitive, AnyEdit, i, j, s);
      assert Last(s) == Keep && Same(l[i - 1], t[j - 1], caseSensitive);
      FreeScriptKeeps(l, t, caseSensitive, i - 1, j - 1, Init(s));
      RunGrows(l, 0, t, 0, i - 1, caseSensitive);
    }
  }

  lemma AppendKept(a: Text, m: nat, b: Text, k: nat, caseSensitive: bool, e: Edit, p: nat)
    requires OneEditAt(a, m, b, k, caseSensitive, e, p) && m < |a| && k < |b| && Same(a[m], b[k], caseSensitive)
    ensures OneEditAt(a, m + 1, b, k + 1, caseSensitive, e, p)
  {
    hide Run, Same;
    RunGrows(a, p + LiteralSpan(e), b, p + InputSpan(e), m - p - LiteralSpan(e), caseSensitive);
  }

  lemma EditLast(a: Text, m: nat, b: Text, k: nat, caseSensitive: bool, e: Edit)
    requires m <= |a| && k <= |b| && e != Keep && Fits(a, b, caseSensitive, m, k, e)
    requires m - LiteralSpan(e) == k - InputSpan(e) && Run(a, 0, b, 0, m - LiteralSpan(e), caseSensitive)
    ensures OneEditAt(a, m, b, k, caseSensitive, e, m - LiteralSpan(e))
  {
    hide Run, Same;
    EmptyRun(a, m, b, k, caseSensitive);
  }

  /** A script of one operation is one edit. */
  lemma {:induction false} OneOperationIsOneEdit(l: Text, t: Text, caseSensitive: bool, i: nat, j: nat, s: seq<Edit>) returns (e: Edit, p: nat)
    requires i <= |l| && j <= |t| && Turns(l, t, caseSensitive, AnyEdit, i, j, s) && ScriptCost(s).operations == 1
    ensures OneEditAt(l, i, t, j, caseSensitive, e, p)
    decreases |s|
  {
    assert s != [];
    UnsnocScript(l, t, caseSensitive, AnyEdit, i, j, s);
    hide Same, Run, Turns, ScriptCost, OneEditAt;
    var last := Last(s);
    if last == Keep {
      e, p := OneOperationIsOneEdit(l, t, caseSensitive, i - 1, j - 1, Init(s));
      AppendKept(l, i - 1, t, j - 1, caseSensitive, e, p);
    } else {
      e, p := last, i - LiteralSpan(last);
      FreeScriptKeeps(l, t, caseSensitive, p, j - InputSpan(last), Init(s));
      EditLast(l, i, t, j, caseSensitive, e);
    }
  }

  lemma EqualTextsAreFree(l: Text, t: Text, caseSensitive: bool, k: nat)
    requires k <= |t| && FitsWord(l, t) && EqualText(l, |l|, t, k, caseSensitive)
    ensures BestCell(l, t, caseSensitive, AnyEdit, |l|, k).operations == 0
  {
    KeepsExtend(l, t, caseSensitive, 0, 0, k, []);
    CellIsLowerBound(l, t, caseSensitive, AnyEdit, k, k, [] + Keeps(k));
  }

  /** A window prefix is one edit away exactly when its cell in the matrix counts one operation. */
  lemma DetectorAgreesWithMatrix(l: Text, t: Text, k: nat, caseSensitive: bool)
    requires k <= |t| && FitsWord(l, t)
    ensures OneEdit(l, t, k, caseSensitive) <==> BestCell(l, t, caseSensitive, AnyEdit, |l|, k).operations == 1
  {
    hide BestCell, TraceScript, Run, ScriptCost, Turns, Count, FitsWord;
    var s := TraceScript(l, t, caseSensitive, AnyEdit, |l|, k);
    TraceAchievesCell(l, t, caseSensitive, AnyEdit, |l|, k);
    if EqualText(l, |l|, t, k, caseSensitive) {
      EqualTextsAreFree(l, t, caseSensitive, k);
    } else if ScriptCost(s).operations == 0 {
      FreeScriptKeeps(l, t, caseSensitive, |l|, k, s);
      assert false;
    } else if ScriptCost(s).operations == 1 {
      var e, p := OneOperationIsOneEdit(l, t, caseSensitive, |l|, k, s);
    } else if OneEdit(l, t, k, caseSensitive) {
      var e, p: nat :| OneEditAt(l, |l|, t, k, caseSensitive, e, p);
      var one := OneEditScript(l, t, k, caseSensitive, e, p);
      CellIsLowerBound(l, t, caseSensitive, AnyEdit, |l|, k, one);
      CountsExplainCost(s);
      CountsTileTexts(l, t, caseSensitive, AnyEdit, |l|, k, s);
    }
  }
}
