/** Strict parsing on a mutable context.  A checkpoint is taken only around an expression whose
    failure is not promised to be clean; every method is proved to give the meaning in which
    every failed attempt restores its start. */
module PegParser {
  import opened Options
  import opened StrictContext
  import opened PegExpression

  /** The outcome and the state agree with the meaning; a failure keeps what was there before,
      and a failure of a failure-safe expression keeps everything. */
  ghost predicate Agrees(g: Grammar, start: View, now: View, verdict: Verdict, meaning: Outcome, clean: bool)
    requires start.Valid()
  {
    match verdict
    case Yes => meaning == Ok(now)
    case Nope => meaning == No && Extends(start, now) && (clean ==> now == start)
    case Unknown => meaning == Out
  }

  ghost predicate Callable(ctx: ParseContext, g: Grammar, e: Expr, sk: Skipper)
    reads ctx
  {
    g.Valid() && WellFormed(g, e) && sk.Valid(g.size) && ctx.Valid() && ctx.cursor <= g.size
  }

  lemma GrownExtends(g: Grammar, s: View, t: View, u: View)
    requires s.Valid() && Grown(g, s, t) && t.Valid() && Extends(t, u)
    ensures Extends(s, t) && Extends(s, u)
  {
    ExtendsTransitive(s, t, u);
  }

  lemma GrownIsExtension(g: Grammar, s: View, t: View)
    requires s.Valid() && Grown(g, s, t)
    ensures Extends(s, t)
  {
  }

  lemma NothingGrows(g: Grammar, s: View)
    requires s.Valid() && s.cursor <= g.size
    ensures Grown(g, s, s) && Extends(s, s)
  {
  }

  method Parse(ctx: ParseContext, g: Grammar, e: Expr, sk: Skipper, fuel: nat) returns (v: Verdict)
    requires Callable(ctx, g, e, sk)
    modifies ctx
    ensures ctx.Valid()
    ensures Agrees(g, old(ctx.State()), ctx.State(), v, Meaning(g, e, sk, old(ctx.State()), fuel), FailureSafe(e))
    decreases fuel, e, 3, 0
  {
    match e {
      case Terminal(id, m, _) =>
        var end := m(ctx.cursor);
        if end.None? {
          return Nope;
        }
        ctx.AppendLeaf(end.value, Other(id), false);
        return Yes;
      case Marker(element) =>
        ctx.AppendLeaf(ctx.cursor, element, false);
        return Yes;
      case And(inner) =>
        v := TryProbe(ctx, g, inner, sk, fuel);
      case Not(inner) =>
        v := TryProbe(ctx, g, inner, sk, fuel);
        v := match v case Yes => Nope case Nope => Yes case Unknown => Unknown;
      case Assign(id, inner) =>
        if inner.Choice? {
          v := ParseWrappedNode(ctx, g, inner, sk, fuel, Assignment(id));
        } else {
          v := ParseOverridingFirstChild(ctx, g, inner, sk, fuel, Assignment(id));
        }
      case Group(_) =>
        v := ParseElements(ctx, g, e, 0, sk, fuel);
      case Choice(_) =>
        v := MatchChoice(ctx, g, e, 0, sk, fuel);
      case Unordered(_) =>
        v := ParseUnordered(ctx, g, e, sk, fuel);
      case Repeat(min, max, _) =>
        if max == Some(min) {
          v := ParseFixed(ctx, g, e, sk, fuel);
        } else if min == 0 {
          v := ParseFromZero(ctx, g, e, sk, fuel);
        } else {
          v := ParseAtLeast(ctx, g, e, sk, fuel);
        }
      case Skipped(local, inner) =>
        v := Parse(ctx, g, inner, local, fuel);
      case Call(rule) =>
        if fuel == 0 {
          return Unknown;
        }
        var local := if g.rules[rule].skipper.Some? then g.rules[rule].skipper.value else sk;
        v := ParseWrappedNode(ctx, g, g.rules[rule].body, local, fuel - 1, Other(rule));
    }
  }

  /** Parses with a checkpoint, unless the expression is failure safe. */
  method AttemptParse(ctx: ParseContext, g: Grammar, e: Expr, sk: Skipper, fuel: nat) returns (v: Verdict)
    requires Callable(ctx, g, e, sk)
    modifies ctx
    ensures ctx.Valid()
    ensures Agrees(g, old(ctx.State()), ctx.State(), v, Meaning(g, e, sk, old(ctx.State()), fuel), true)
    decreases fuel, e, 4, 0
  {
    if FailureSafe(e) {
      v := Parse(ctx, g, e, sk, fuel);
    } else {
      ghost var start := ctx.State();
      var checkpoint := ctx.Mark();
      v := Parse(ctx, g, e, sk, fuel);
      if v.Nope? {
        ctx.Rewind(checkpoint, start);
      }
    }
  }

  /** Linking the innermost node to its parent is the specified closing of it. */
  lemma ExitCloses(g: Grammar, start: View, now: View, element: Element)
    requires start.Valid() && Grown(g, start.Opened(), now)
    ensures var n := |start.frames|;
            && |now.frames| == n + 1
            && Closed(start, now, element) ==
               View(now.cursor, now.lastVisible,
                    now.frames[..n - 1] + [now.frames[n - 1] + [Node(element, start.cursor, now.lastVisible, now.frames[n])]])
  {
    var n := |start.frames|;
    assert now.frames[..n] == start.frames;
    assert now.frames[..n - 1] == start.frames[..n - 1] && now.frames[n - 1] == start.frames[n - 1];
  }

  /** Opens a node around the expression; a failure leaves the node open. */
  method ParseWrappedNode(ctx: ParseContext, g: Grammar, e: Expr, sk: Skipper, fuel: nat, element: Element) returns (v: Verdict)
    requires Callable(ctx, g, e, sk)
    modifies ctx
    ensures ctx.Valid()
    ensures var start := old(ctx.State());
            var r := Meaning(g, e, sk, start.Opened(), fuel);
            Agrees(g, start, ctx.State(), v, if r.Ok? then Ok(Closed(start, r.state, element)) else r, false)
    decreases fuel, e, 5, 0
  {
    hide Meaning, Closed, Grown, Extends, WellFormed, Nullable, Grammar.Valid, Skipper.Valid;
    ghost var start := ctx.State();
    var begin := ctx.cursor;
    ctx.Enter();
    ghost var inside := ctx.State();
    v := Parse(ctx, g, e, sk, fuel);
    if v.Yes? {
      ExitCloses(g, start, ctx.State(), element);
      ctx.Exit(begin, element);
    } else if v.Nope? {
      ExtendsTransitive(start, inside, ctx.State());
    }
  }

  method ParseOverridingFirstChild(ctx: ParseContext, g: Grammar, e: Expr, sk: Skipper, fuel: nat, element: Element)
    returns (v: Verdict)
    requires Callable(ctx, g, e, sk)
    modifies ctx
    ensures ctx.Valid()
    ensures var start := old(ctx.State());
            var r := Meaning(g, e, sk, start, fuel);
            Agrees(g, start, ctx.State(), v, if r.Ok? then Ok(FirstRelabelled(start, r.state, element)) else r, FailureSafe(e))
    decreases fuel, e, 5, 0
  {
    var depth := |ctx.frames| - 1;
    var before := |ctx.frames[depth]|;
    v := Parse(ctx, g, e, sk, fuel);
    if v.Yes? && |ctx.frames[depth]| > before {
      var child := Relabel(ctx.frames[depth][before], element);
      ctx.frames := ctx.frames[depth := ctx.frames[depth][before := child]];
    }
  }

  /** A group stops at its first failing part and leaves the partial work to its caller. */
  method ParseElements(ctx: ParseContext, g: Grammar, e: Expr, i: nat, sk: Skipper, fuel: nat) returns (v: Verdict)
    requires Callable(ctx, g, e, sk) && e.Group? && i <= |e.parts|
    modifies ctx
    ensures ctx.Valid()
    ensures Agrees(g, old(ctx.State()), ctx.State(), v, GroupFrom(g, e, i, sk, old(ctx.State()), fuel), false)
    decreases fuel, e, 2, |e.parts| - i
  {
    if i == |e.parts| {
      return Yes;
    }
    ghost var start := ctx.State();
    if i > 0 {
      ctx.Skip(sk);
    }
    ghost var from := ctx.State();
    assert Grown(g, start, from);
    v := Parse(ctx, g, e.parts[i], sk, fuel);
    if v.Yes? {
      ghost var mid := ctx.State();
      assert Grown(g, start, mid);
      v := ParseElements(ctx, g, e, i + 1, sk, fuel);
      if v.Nope? {
        GrownExtends(g, start, mid, ctx.State());
      }
    } else if v.Nope? {
      GrownExtends(g, start, from, ctx.State());
    }
  }

  method MatchChoice(ctx: ParseContext, g: Grammar, e: Expr, i: nat, sk: Skipper, fuel: nat) returns (v: Verdict)
    requires Callable(ctx, g, e, sk) && e.Choice? && i <= |e.parts|
    modifies ctx
    ensures ctx.Valid()
    ensures Agrees(g, old(ctx.State()), ctx.State(), v, ChoiceFrom(g, e, i, sk, old(ctx.State()), fuel), true)
    decreases fuel, e, 2, |e.parts| - i
  {
    if i == |e.parts| {
      return Nope;
    }
    v := AttemptParse(ctx, g, e.parts[i], sk, fuel);
    if v.Nope? {
      v := MatchChoice(ctx, g, e, i + 1, sk, fuel);
    }
  }

  method ParseUnordered(ctx: ParseContext, g: Grammar, e: Expr, sk: Skipper, fuel: nat) returns (v: Verdict)
    requires Callable(ctx, g, e, sk) && e.Unordered?
    modifies ctx
    ensures ctx.Valid()
    ensures Agrees(g, old(ctx.State()), ctx.State(), v,
                   UnorderedFrom(g, e, NoFlags(|e.parts|), 0, sk, old(ctx.State()), fuel), true)
    decreases fuel, e, 2, 0
  {
    hide Meaning, FirstUnmatched, UnorderedFrom, WellFormed, Nullable, View.Append, Grown, Extends, Skipper.Valid, Grammar.Valid;
    ghost var start := ctx.State();
    NothingGrows(g, start);
    var groupCheckpoint := ctx.Mark();
    var flags := NoFlags(|e.parts|);
    var count := 0;
    while count < |e.parts|
      invariant ctx.Valid() && |flags| == |e.parts| && count <= |e.parts| && ctx.cursor <= g.size
      invariant Grown(g, start, ctx.State())
      invariant UnorderedFrom(g, e, NoFlags(|e.parts|), 0, sk, start, fuel)
             == UnorderedFrom(g, e, flags, count, sk, ctx.State(), fuel)
      decreases |e.parts| - count
    {
      ghost var here := ctx.State();
      ghost var from := Between(count, sk, here);
      BetweenGrows(g, count, sk, here);
      OutcomeGrows(g, start, here, Ok(from));
      GrownIsExtension(g, here, from);
      UnorderedUnfolds(g, e, flags, count, sk, here, fuel);
      OutcomeGrows(g, start, from, FirstUnmatched(g, e, 0, flags, sk, from, fuel).1);
      var between := ctx.Mark();
      if count > 0 {
        ctx.Skip(sk);
      }
      var i;
      i, v := TryMatchOne(ctx, g, e, 0, flags, sk, fuel);
      if v.Unknown? {
        return;
      }
      if v.Nope? {
        if count > 0 {
          ctx.Rewind(between, here);
        }
        break;
      }
      flags := flags[i := true];
      count := count + 1;
    }
    if count == |e.parts| {
      UnorderedDone(g, e, flags, sk, ctx.State(), fuel);
      return Yes;
    }
    GrownIsExtension(g, start, ctx.State());
    ctx.Rewind(groupCheckpoint, start);
    return Nope;
  }

  method TryMatchOne(ctx: ParseContext, g: Grammar, e: Expr, i: nat, flags: seq<bool>, sk: Skipper, fuel: nat)
    returns (part: nat, v: Verdict)
    requires Callable(ctx, g, e, sk) && e.Unordered? && |flags| == |e.parts| && i <= |e.parts|
    modifies ctx
    ensures ctx.Valid()
    ensures var r := FirstUnmatched(g, e, i, flags, sk, old(ctx.State()), fuel);
            Agrees(g, old(ctx.State()), ctx.State(), v, r.1, true) && (v.Yes? ==> part == r.0)
    decreases fuel, e, 1, |e.parts| - i
  {
    if i == |e.parts| {
      return i, Nope;
    }
    if !flags[i] {
      v := AttemptParse(ctx, g, e.parts[i], sk, fuel);
      if !v.Nope? {
        return i, v;
      }
    }
    part, v := TryMatchOne(ctx, g, e, i + 1, flags, sk, fuel);
  }

  lemma ItemIsWellFormed(g: Grammar, e: Expr)
    requires WellFormed(g, e) && e.Repeat?
    ensures WellFormed(g, e.inner) && (e.max.Some? ==> 0 < e.max.value && e.min <= e.max.value)
  {
  }

  lemma RepeatUnfolds(g: Grammar, e: Expr, count: nat, sk: Skipper, s: View, fuel: nat)
    requires g.Valid() && WellFormed(g, e) && sk.Valid(g.size) && s.Valid() && s.cursor <= g.size
    requires e.Repeat? && WellFormed(g, e.inner) && e.max != Some(count)
    requires var from := Between(count, sk, s); from.Valid() && from.cursor <= g.size
    ensures var from := Between(count, sk, s);
            var r := Meaning(g, e.inner, sk, from, fuel);
            && (r.Ok? ==> Grown(g, from, r.state) && from.cursor < r.state.cursor)
            && RepeatFrom(g, e, count, sk, s, fuel) ==
               if r.Ok? then RepeatFrom(g, e, count + 1, sk, r.state, fuel) else if r.No? && count >= e.min then Ok(s) else r
  {
    hide Meaning, Between, Grown;
  }

  lemma RepeatDone(g: Grammar, e: Expr, sk: Skipper, s: View, fuel: nat)
    requires g.Valid() && WellFormed(g, e) && sk.Valid(g.size) && s.Valid() && s.cursor <= g.size
    requires e.Repeat? && e.max.Some?
    ensures RepeatFrom(g, e, e.max.value, sk, s, fuel) == Ok(s)
  {
    hide Meaning, WellFormed;
  }

  /** What the next item, the skip before it included, makes of the repetition; a failed one may leave something behind. */
  ghost predicate Advances(g: Grammar, e: Expr, count: nat, sk: Skipper, here: View, now: View, v: Verdict, fuel: nat)
    requires g.Valid() && WellFormed(g, e) && sk.Valid(g.size) && here.Valid() && here.cursor <= g.size && e.Repeat?
  {
    match v
    case Yes =>
      && now.Valid() && Grown(g, here, now) && here.cursor < now.cursor <= g.size
      && RepeatFrom(g, e, count, sk, here, fuel) == RepeatFrom(g, e, count + 1, sk, now, fuel)
    case Nope => Extends(here, now) && RepeatFrom(g, e, count, sk, here, fuel) == if count >= e.min then Ok(here) else No
    case Unknown => RepeatFrom(g, e, count, sk, here, fuel) == Out
  }

  lemma FirstItem(g: Grammar, e: Expr, sk: Skipper, start: View, now: View, v: Verdict, fuel: nat, clean: bool)
    requires g.Valid() && WellFormed(g, e) && sk.Valid(g.size) && start.Valid() && start.cursor <= g.size
    requires e.Repeat? && WellFormed(g, e.inner) && e.max != Some(0)
    requires Agrees(g, start, now, v, Meaning(g, e.inner, sk, start, fuel), clean)
    ensures Advances(g, e, 0, sk, start, now, v, fuel)
  {
    NothingGrows(g, start);
    hide Meaning, RepeatFrom, WellFormed, Grown, Extends;
    RepeatUnfolds(g, e, 0, sk, start, fuel);
    OutcomeGrows(g, start, start, Meaning(g, e.inner, sk, start, fuel));
  }

  lemma NextItem(g: Grammar, e: Expr, count: nat, sk: Skipper, here: View, now: View, v: Verdict, fuel: nat, clean: bool)
    requires g.Valid() && WellFormed(g, e) && sk.Valid(g.size) && here.Valid() && here.cursor <= g.size
    requires e.Repeat? && WellFormed(g, e.inner) && 0 < count && e.max != Some(count)
    requires var from := AfterSkip(sk, here);
             from.Valid() && from.cursor <= g.size && Agrees(g, from, now, v, Meaning(g, e.inner, sk, from, fuel), clean)
    ensures Advances(g, e, count, sk, here, now, v, fuel)
  {
    var from := AfterSkip(sk, here);
    assert from == Between(count, sk, here);
    SkipGrows(g, here, sk);
    assert here.cursor <= from.cursor;
    hide Meaning, RepeatFrom, WellFormed, Grown, Extends, AfterSkip, Between;
    RepeatUnfolds(g, e, count, sk, here, fuel);
    OutcomeGrows(g, here, from, Meaning(g, e.inner, sk, from, fuel));
    if v.Nope? {
      GrownExtends(g, here, from, now);
    }
  }

  /** The first item, with or without a checkpoint around it. */
  method ParseFirst(ctx: ParseContext, g: Grammar, e: Expr, attempt: bool, sk: Skipper, fuel: nat) returns (v: Verdict)
    requires Callable(ctx, g, e, sk) && e.Repeat? && e.max != Some(0)
    modifies ctx
    ensures ctx.Valid()
    ensures Advances(g, e, 0, sk, old(ctx.State()), ctx.State(), v, fuel)
    ensures v.Nope? && (attempt || FailureSafe(e.inner)) ==> ctx.State() == old(ctx.State())
    decreases fuel, e, 1, 1
  {
    ItemIsWellFormed(g, e);
    hide Meaning, RepeatFrom, WellFormed, Nullable, Grown, Extends;
    hide View.Append, Skipper.Valid, Grammar.Valid, Advances, FailureSafe;
    ghost var start := ctx.State();
    if attempt {
      v := AttemptParse(ctx, g, e.inner, sk, fuel);
    } else {
      v := Parse(ctx, g, e.inner, sk, fuel);
    }
    FirstItem(g, e, sk, start, ctx.State(), v, fuel, attempt || FailureSafe(e.inner));
  }

  /** The next item and the skip before it. */
  method ParseNext(ctx: ParseContext, g: Grammar, e: Expr, ghost count: nat, sk: Skipper, fuel: nat) returns (v: Verdict)
    requires Callable(ctx, g, e, sk) && e.Repeat? && 0 < count && e.max != Some(count)
    modifies ctx
    ensures ctx.Valid()
    ensures Advances(g, e, count, sk, old(ctx.State()), ctx.State(), v, fuel)
    decreases fuel, e, 1, 1
  {
    ghost var here := ctx.State();
    SkipGrows(g, here, sk);
    hide Meaning, RepeatFrom, WellFormed, Nullable, Grown, Extends, View.Append, Skipper.Valid, Grammar.Valid, Advances;
    ItemIsWellFormed(g, e);
    ctx.Skip(sk);
    v := Parse(ctx, g, e.inner, sk, fuel);
    NextItem(g, e, count, sk, here, ctx.State(), v, fuel, FailureSafe(e.inner));
  }

  lemma FixedCount(g: Grammar, e: Expr)
    requires WellFormed(g, e) && e.Repeat? && e.max == Some(e.min)
    ensures e.min > 0 && (FailureSafe(e) ==> e.min == 1 && FailureSafe(e.inner))
  {
  }

  /** Exactly `min` items, without any checkpoint. */
  method ParseFixed(ctx: ParseContext, g: Grammar, e: Expr, sk: Skipper, fuel: nat) returns (v: Verdict)
    requires Callable(ctx, g, e, sk) && e.Repeat? && e.max == Some(e.min)
    modifies ctx
    ensures ctx.Valid()
    ensures Agrees(g, old(ctx.State()), ctx.State(), v, RepeatFrom(g, e, 0, sk, old(ctx.State()), fuel), FailureSafe(e))
    decreases fuel, e, 2, 0
  {
    hide FailureSafe, Meaning, RepeatFrom, WellFormed, Nullable, Grown, Extends, View.Append, Skipper.Valid, Grammar.Valid;
    FixedCount(g, e);
    ghost var start := ctx.State();
    v := ParseFirst(ctx, g, e, false, sk, fuel);
    if !v.Yes? {
      return;
    }
    ghost var here := ctx.State();
    for count := 1 to e.min
      invariant ctx.Valid() && ctx.State() == here && v.Yes? && Grown(g, start, here) && here.cursor <= g.size
      invariant RepeatFrom(g, e, 0, sk, start, fuel) == RepeatFrom(g, e, count, sk, here, fuel)
    {
      v := ParseNext(ctx, g, e, count, sk, fuel);
      ghost var now := ctx.State();
      if v.Nope? {
        GrownExtends(g, start, here, now);
      }
      if !v.Yes? {
        return;
      }
      OutcomeGrows(g, start, here, Ok(now));
      here := now;
    }
    RepeatDone(g, e, sk, here, fuel);
  }

  /** Optional and starred items: no failure at all. */
  method ParseFromZero(ctx: ParseContext, g: Grammar, e: Expr, sk: Skipper, fuel: nat) returns (v: Verdict)
    requires Callable(ctx, g, e, sk) && e.Repeat? && e.min == 0 && e.max != Some(0)
    modifies ctx
    ensures ctx.Valid()
    ensures Agrees(g, old(ctx.State()), ctx.State(), v, RepeatFrom(g, e, 0, sk, old(ctx.State()), fuel), true)
    decreases fuel, e, 2, 0
  {
    v := AttemptParse(ctx, g, e.inner, sk, fuel);
    if v.Nope? {
      return Yes;
    }
    if v.Yes? && e.max != Some(1) {
      v := ParseMore(ctx, g, e, 1, sk, fuel);
    }
  }

  /** The next item and the skip before it, or neither. */
  method AttemptNext(ctx: ParseContext, g: Grammar, e: Expr, ghost count: nat, sk: Skipper, fuel: nat, checkpoint: Checkpoint)
    returns (v: Verdict)
    requires Callable(ctx, g, e, sk) && e.Repeat? && 0 < count && e.max != Some(count) && checkpoint == MarkOf(ctx.State())
    modifies ctx
    ensures ctx.Valid()
    ensures Advances(g, e, count, sk, old(ctx.State()), ctx.State(), v, fuel) && (v.Nope? ==> ctx.State() == old(ctx.State()))
    decreases fuel, e, 0, 1
  {
    ghost var here := ctx.State();
    SkipGrows(g, here, sk);
    hide Meaning, RepeatFrom, WellFormed, Nullable, Grown, Extends, View.Append, Skipper.Valid, Grammar.Valid, FailureSafe;
    ItemIsWellFormed(g, e);
    ctx.Skip(sk);
    v := AttemptParse(ctx, g, e.inner, sk, fuel);
    NextItem(g, e, count, sk, here, ctx.State(), v, fuel, true);
    if v.Nope? {
      ctx.Rewind(checkpoint, here);
      NothingGrows(g, here);
    }
  }

  /** At least one item: the mandatory ones first, then as many as match. */
  method ParseAtLeast(ctx: ParseContext, g: Grammar, e: Expr, sk: Skipper, fuel: nat) returns (v: Verdict)
    requires Callable(ctx, g, e, sk) && e.Repeat? && e.min > 0 && e.max != Some(e.min)
    modifies ctx
    ensures ctx.Valid()
    ensures Agrees(g, old(ctx.State()), ctx.State(), v, RepeatFrom(g, e, 0, sk, old(ctx.State()), fuel), FailureSafe(e))
    decreases fuel, e, 2, 0
  {
    assert FailureSafe(e) ==> e.min == 1;
    hide FailureSafe, Meaning, RepeatFrom, WellFormed, Nullable, Grown;
    hide Extends, View.Append, AfterSkip, Skipper.Valid, Grammar.Valid;
    ghost var start := ctx.State();
    v := ParseFirst(ctx, g, e, true, sk, fuel);
    if !v.Yes? {
      return;
    }
    for count := 1 to e.min
      invariant ctx.Valid() && Grown(g, start, ctx.State()) && ctx.cursor <= g.size
      invariant RepeatFrom(g, e, 0, sk, start, fuel) == RepeatFrom(g, e, count, sk, ctx.State(), fuel)
    {
      ghost var here := ctx.State();
      var checkpoint := ctx.Mark();
      v := AttemptNext(ctx, g, e, count, sk, fuel, checkpoint);
      if v.Yes? {
        OutcomeGrows(g, start, here, Ok(ctx.State()));
      } else {
        GrownIsExtension(g, start, here);
        return;
      }
    }
    v := ParseMore(ctx, g, e, e.min, sk, fuel);
  }

  /** Items past the mandatory ones; the skip before a failing one is undone. */
  method ParseMore(ctx: ParseContext, g: Grammar, e: Expr, matched: nat, sk: Skipper, fuel: nat) returns (v: Verdict)
    requires Callable(ctx, g, e, sk) && e.Repeat? && 0 < matched && e.min <= matched && (e.max.Some? ==> matched <= e.max.value)
    modifies ctx
    ensures ctx.Valid() && !v.Nope?
    ensures Agrees(g, old(ctx.State()), ctx.State(), v, RepeatFrom(g, e, matched, sk, old(ctx.State()), fuel), true)
    decreases fuel, e, 1, 0
  {
    hide FailureSafe, Meaning, RepeatFrom, WellFormed, Nullable, Grown;
    hide Extends, View.Append, AfterSkip, Skipper.Valid, Grammar.Valid;
    ghost var start := ctx.State();
    NothingGrows(g, start);
    var count := matched;
    while e.max != Some(count)
      invariant ctx.Valid() && ctx.cursor <= g.size && Grown(g, start, ctx.State())
      invariant matched <= count && (e.max.Some? ==> count <= e.max.value)
      invariant RepeatFrom(g, e, matched, sk, start, fuel) == RepeatFrom(g, e, count, sk, ctx.State(), fuel)
      decreases g.size - ctx.cursor
    {
      ghost var here := ctx.State();
      var checkpoint := ctx.Mark();
      v := AttemptNext(ctx, g, e, count, sk, fuel, checkpoint);
      if v.Nope? {
        return Yes;
      }
      if v.Unknown? {
        return;
      }
      OutcomeGrows(g, start, here, Ok(ctx.State()));
      count := count + 1;
    }
    RepeatDone(g, e, sk, ctx.State(), fuel);
    return Yes;
  }

  // ---- Lookahead leaves no trace ----

  method TryProbe(ctx: ParseContext, g: Grammar, e: Expr, sk: Skipper, fuel: nat) returns (v: Verdict)
    requires Callable(ctx, g, e, sk)
    modifies ctx
    ensures ctx.Valid() && (!v.Unknown? ==> ctx.State() == old(ctx.State()))
    ensures v == Probe(g, e, sk, old(ctx.State()), fuel)
    decreases fuel, e, 5, 0
  {
    match e {
      case Marker(Create(_)) => return Nope;
      case And(inner) => v := TryProbe(ctx, g, inner, sk, fuel);
      case Not(inner) =>
        v := TryProbe(ctx, g, inner, sk, fuel);
        v := match v case Yes => Nope case Nope => Yes case Unknown => Unknown;
      case Group(_) => v := FastProbeElements(ctx, g, e, 0, sk, fuel);
      case Choice(_) => v := AnyChoiceProbes(ctx, g, e, 0, false, sk, fuel);
      case Repeat(_, _, inner) => v := AttemptFastProbe(ctx, g, inner, sk, fuel);
      case Skipped(_, inner) =>
        if ProbesItsStart(inner) {
          v := TryProbe(ctx, g, inner, sk, fuel);
        } else {
          v := ParseAndUndo(ctx, g, e, sk, fuel);
        }
      case _ => v := ParseAndUndo(ctx, g, e, sk, fuel);
    }
  }

  method ParseAndUndo(ctx: ParseContext, g: Grammar, e: Expr, sk: Skipper, fuel: nat) returns (v: Verdict)
    requires Callable(ctx, g, e, sk)
    modifies ctx
    ensures ctx.Valid() && (!v.Unknown? ==> ctx.State() == old(ctx.State()))
    ensures v == ParseProbe(g, e, sk, old(ctx.State()), fuel)
    decreases fuel, e, 4, 0
  {
    ghost var start := ctx.State();
    var checkpoint := ctx.Mark();
    v := Parse(ctx, g, e, sk, fuel);
    if !v.Unknown? {
      ctx.Rewind(checkpoint, start);
    }
  }

  method AttemptFastProbe(ctx: ParseContext, g: Grammar, e: Expr, sk: Skipper, fuel: nat) returns (v: Verdict)
    requires Callable(ctx, g, e, sk)
    modifies ctx
    ensures ctx.Valid() && (!v.Unknown? ==> ctx.State() == old(ctx.State()))
    ensures v == FastProbe(g, e, sk, old(ctx.State()), fuel)
    decreases fuel, e, 6, 0
  {
    match e {
      case Group(_) => v := FastProbeElements(ctx, g, e, 0, sk, fuel);
      case Choice(_) => v := AnyChoiceProbes(ctx, g, e, 0, true, sk, fuel);
      case Repeat(_, _, inner) => v := AttemptFastProbe(ctx, g, inner, sk, fuel);
      case Assign(_, inner) => v := AttemptFastProbe(ctx, g, inner, sk, fuel);
      case Call(rule) =>
        if fuel == 0 {
          return Unknown;
        }
        var local := if g.rules[rule].skipper.Some? then g.rules[rule].skipper.value else sk;
        v := AttemptFastProbe(ctx, g, g.rules[rule].body, local, fuel - 1);
      case Skipped(_, inner) =>
        if ProbesItsStart(inner) {
          v := AttemptFastProbe(ctx, g, inner, sk, fuel);
        } else {
          v := TryProbe(ctx, g, e, sk, fuel);
        }
      case _ => v := TryProbe(ctx, g, e, sk, fuel);
    }
  }

  method FastProbeElements(ctx: ParseContext, g: Grammar, e: Expr, i: nat, sk: Skipper, fuel: nat) returns (v: Verdict)
    requires Callable(ctx, g, e, sk) && e.Group? && i <= |e.parts|
    modifies ctx
    ensures ctx.Valid() && (!v.Unknown? ==> ctx.State() == old(ctx.State()))
    ensures v == FastProbeGroup(g, e, i, sk, old(ctx.State()), fuel)
    decreases fuel, e, 2, |e.parts| - i
  {
    if i == |e.parts| {
      return Nope;
    }
    v := AttemptFastProbe(ctx, g, e.parts[i], sk, fuel);
    if v.Nope? && Nullable(g, e.parts[i]) {
      v := FastProbeElements(ctx, g, e, i + 1, sk, fuel);
    }
  }

  method AnyChoiceProbes(ctx: ParseContext, g: Grammar, e: Expr, i: nat, fast: bool, sk: Skipper, fuel: nat) returns (v: Verdict)
    requires Callable(ctx, g, e, sk) && e.Choice? && i <= |e.parts|
    modifies ctx
    ensures ctx.Valid() && (!v.Unknown? ==> ctx.State() == old(ctx.State()))
    ensures v == ProbeChoice(g, e, i, fast, sk, old(ctx.State()), fuel)
    decreases fuel, e, 2, |e.parts| - i
  {
    if i == |e.parts| {
      return Nope;
    }
    if fast {
      v := AttemptFastProbe(ctx, g, e.parts[i], sk, fuel);
    } else {
      v := TryProbe(ctx, g, e.parts[i], sk, fuel);
    }
    if v.Nope? {
      v := AnyChoiceProbes(ctx, g, e, i + 1, fast, sk, fuel);
    }
  }
}
