/** The recursive descent of a recovery parse.

    What an element's body does is left open: a body is any strategy that looks at everything that
    happened in it so far and then moves the context (edits, skips, rewinds), descends into an
    element, or finishes.  Left-recursive grammars are included.  Strict sub-parses, and the body
    between two descents, are taken as finite. */
module RecoveryDescent {

  /** The context apart from the descent's own counters: its cursor, and the rest of it encoded as a number. */
  datatype World = World(cursor: nat, rest: nat)

  /** How an element is entered: as a parser rule, as a data type rule, or by a recovery probe. */
  datatype Style = Rule | DataType | Probe

  datatype Action = Finish(matched: bool, partial: bool) | Move(to: World) | Descend(element: nat, style: Style)

  datatype Event = Moved(to: World) | Returned(ok: bool, world: World)

  datatype Entry = Entry(element: nat, cursor: nat)

  datatype Grammar = Grammar(
    elements: nat, size: nat, maxEntries: nat,
    act: (nat, Style, World, seq<Event>) -> Action,
    limit: (nat, Style, World) -> nat,
    inactive: World -> bool,
    strict: (nat, World) -> World,
    accepts: (nat, World) -> bool)
  {
    /** Bodies stay on the text and on the grammar, and finish within some number of actions of their own. */
    ghost predicate Valid() {
      && (forall e, y, w, h :: |h| >= limit(e, y, w) ==> act(e, y, w, h).Finish?)
      && (forall e, y, w, h :: act(e, y, w, h).Move? ==> act(e, y, w, h).to.cursor <= size)
      && (forall e, y, w, h :: act(e, y, w, h).Descend? ==> act(e, y, w, h).element < elements)
      && (forall e: nat, w: World :: w.cursor <= size ==> strict(e, w).cursor <= size)
    }
  }

  const MAX_DEPTH: nat := 24

  datatype State = State(world: World, entries: nat, depth: nat, active: seq<Entry>)

  predicate Distinct(entries: seq<Entry>) {
    forall i: nat, j: nat :: i < j < |entries| ==> entries[i] != entries[j]
  }

  ghost predicate Valid(g: Grammar, s: State) {
    && g.Valid() && s.world.cursor <= g.size
    && s.entries <= g.maxEntries && s.depth <= MAX_DEPTH && s.depth <= |s.active|
    && Distinct(s.active)
    && forall i: nat :: i < |s.active| ==> s.active[i].element < g.elements && s.active[i].cursor <= g.size
  }

  /** The pairs of element and position that are not active yet. */
  ghost function Unused(g: Grammar, active: seq<Entry>): set<Entry> {
    (set e: nat, p: nat | e < g.elements && p <= g.size :: Entry(e, p)) - (set x | x in active)
  }

  function Entered(s: State, element: nat, style: Style): State {
    State(s.world, if style == Rule then s.entries + 1 else s.entries, if style == Rule then s.depth + 1 else s.depth,
          s.active + [Entry(element, s.world.cursor)])
  }

  predicate Admits(g: Grammar, s: State, element: nat, style: Style) {
    && (style == Rule ==> s.entries < g.maxEntries)
    && Entry(element, s.world.cursor) !in s.active
    && (style == Rule ==> s.depth < MAX_DEPTH)
  }

  lemma Smaller(a: set<Entry>, b: set<Entry>, x: Entry)
    requires a <= b && x in b && x !in a
    ensures |a| < |b|
  {
    var rest := b - a;
    assert b == a + rest && a * rest == {} && x in rest;
  }

  lemma PairIsUsed(g: Grammar, active: seq<Entry>, x: Entry)
    requires x.element < g.elements && x.cursor <= g.size && x !in active
    ensures |Unused(g, active + [x])| < |Unused(g, active)|
  {
    var longer := active + [x];
    assert longer[|active|] == x && x in longer;
    assert Unused(g, longer) <= Unused(g, active) by {
      assert forall y :: y in active ==> y in longer;
    }
    Smaller(Unused(g, longer), Unused(g, active), x);
  }

  lemma EnteredIsValid(g: Grammar, s: State, element: nat, style: Style)
    requires Valid(g, s) && element < g.elements && Admits(g, s, element, style)
    ensures Valid(g, Entered(s, element, style))
  {
    hide Grammar.Valid;
    var active := Entered(s, element, style).active;
    forall i: nat | i < |active|
      ensures active[i].element < g.elements && active[i].cursor <= g.size
      ensures forall j: nat :: j < i ==> active[j] != active[i]
    {
      assert i < |s.active| ==> active[i] == s.active[i];
    }
  }

  /** Entering an element takes one pair out of those still unused, and keeps the invariant. */
  lemma EnteringUsesAPair(g: Grammar, s: State, element: nat, style: Style)
    requires Valid(g, s) && element < g.elements && Admits(g, s, element, style)
    ensures Valid(g, Entered(s, element, style))
    ensures |Unused(g, Entered(s, element, style).active)| < |Unused(g, s.active)|
  {
    EnteredIsValid(g, s, element, style);
    PairIsUsed(g, s.active, Entry(element, s.world.cursor));
  }

  /** The result of a descent, with the state at the start of each body it ran. */
  datatype Outcome = Outcome(ok: bool, partial: bool, state: State, bodies: nat, moments: seq<State>)

  /** A moment inside a descent from `s`: below `s`, and with no entry refunded before or after it. */
  ghost predicate Between(g: Grammar, s: State, moment: State, entries: nat) {
    Valid(g, moment) && s.active < moment.active && s.entries <= moment.entries <= entries
  }

  /** Between two states of one level of the descent: entries are only spent, one per rule body; depth and stack are back. */
  ghost predicate Balanced(g: Grammar, s: State, o: Outcome) {
    && Valid(g, o.state) && o.state.depth == s.depth && o.state.active == s.active
    && o.state.entries == s.entries + o.bodies
    && (forall i: nat :: i < |o.moments| ==> Between(g, s, o.moments[i], o.state.entries))
    && (forall i: nat, j: nat :: i < j < |o.moments| ==> o.moments[i].entries <= o.moments[j].entries)
  }

  /** Leaving a body: the element is no longer active, and a rule gives its depth back but not its entry. */
  function Left(s: State, style: Style, body: Outcome): Outcome {
    var ok := body.ok || (style == Rule && body.partial && |body.state.active| == 1);
    Outcome(ok, false, body.state.(depth := s.depth, active := s.active), body.bodies + (if style == Rule then 1 else 0), body.moments)
  }

  lemma LongerPrefix(a: seq<Entry>, b: seq<Entry>, c: seq<Entry>)
    requires a < b && b <= c
    ensures a < c
  {
  }

  /** A body's start and the moments inside it, seen from the state before it. */
  lemma MomentsInOrder(g: Grammar, s: State, start: State, body: Outcome)
    requires Balanced(g, start, body) && Valid(g, start) && s.active < start.active && s.entries <= start.entries
    ensures var moments := [start] + body.moments;
            && (forall i: nat :: i < |moments| ==> Between(g, s, moments[i], body.state.entries))
            && (forall i: nat, j: nat :: i < j < |moments| ==> moments[i].entries <= moments[j].entries)
  {
    hide Valid;
    var moments := [start] + body.moments;
    assert forall i: nat :: 0 < i < |moments| ==> moments[i] == body.moments[i - 1];
    forall i: nat | 0 < i < |moments|
      ensures Between(g, s, moments[i], body.state.entries) && start.entries <= moments[i].entries
    {
      assert Between(g, start, body.moments[i - 1], body.state.entries);
      LongerPrefix(s.active, start.active, moments[i].active);
    }
  }

  lemma PoppingIsValid(g: Grammar, s: State, t: State)
    requires Valid(g, s) && Valid(g, t)
    ensures Valid(g, t.(depth := s.depth, active := s.active))
  {
  }

  lemma LeavingBalances(g: Grammar, s: State, element: nat, style: Style, body: Outcome)
    requires Valid(g, s) && element < g.elements && Admits(g, s, element, style)
    requires Balanced(g, Entered(s, element, style), body)
    ensures var o := Left(s, style, body);
            Balanced(g, s, o.(moments := [Entered(s, element, style)] + body.moments))
  {
    EnteredIsValid(g, s, element, style);
    var start := Entered(s, element, style);
    assert s.active < start.active && s.entries <= start.entries;
    hide Valid, Admits, Between, Entered;
    MomentsInOrder(g, s, start, body);
    PoppingIsValid(g, s, body.state);
  }

  lemma ChainingBalances(g: Grammar, s: State, o: Outcome, rest: Outcome)
    requires Balanced(g, s, o) && Balanced(g, o.state, rest)
    ensures Balanced(g, s, Outcome(rest.ok, rest.partial, rest.state, o.bodies + rest.bodies, o.moments + rest.moments))
  {
    hide Valid;
    var moments := o.moments + rest.moments;
    assert forall i: nat :: i < |moments| ==> moments[i] == if i < |o.moments| then o.moments[i] else rest.moments[i - |o.moments|];
    forall i: nat | i < |moments|
      ensures Between(g, s, moments[i], rest.state.entries)
      ensures if i < |o.moments| then moments[i].entries <= o.state.entries else o.state.entries <= moments[i].entries
    {
      if i < |o.moments| {
        assert Between(g, s, o.moments[i], o.state.entries);
      } else {
        assert Between(g, o.state, rest.moments[i - |o.moments|], rest.state.entries);
      }
    }
  }

  /** The actions a body may still take. */
  ghost function Remaining(g: Grammar, element: nat, style: Style, entry: World, history: seq<Event>): nat {
    if |history| < g.limit(element, style, entry) then g.limit(element, style, entry) - |history| else 0
  }

  /** Descending into an element. */
  ghost function Descent(g: Grammar, s: State, element: nat, style: Style): (o: Outcome)
    requires Valid(g, s) && element < g.elements
    ensures Balanced(g, s, o)
    decreases |Unused(g, s.active)|, 0, 0
  {
    if style != Probe && g.inactive(s.world) then
      Outcome(g.accepts(element, s.world), false, s.(world := g.strict(element, s.world)), 0, [])
    else if !Admits(g, s, element, style) then Outcome(false, false, s, 0, [])
    else
      EnteringUsesAPair(g, s, element, style);
      var start := Entered(s, element, style);
      var body := Body(g, start, element, style, s.world, []);
      LeavingBalances(g, s, element, style, body);
      Left(s, style, body).(moments := [start] + body.moments)
  }

  /** The rest of a body, after `history`. */
  ghost function Body(g: Grammar, s: State, element: nat, style: Style, entry: World, history: seq<Event>): (o: Outcome)
    requires Valid(g, s)
    ensures Balanced(g, s, o)
    decreases |Unused(g, s.active)|, 1, Remaining(g, element, style, entry, history)
  {
    match g.act(element, style, entry, history)
    case Finish(matched, partial) => Outcome(matched, partial, s, 0, [])
    case Move(to) => Body(g, s.(world := to), element, style, entry, history + [Moved(to)])
    case Descend(inner, how) =>
      var o := Descent(g, s, inner, how);
      var rest := Body(g, o.state, element, style, entry, history + [Returned(o.ok, o.state.world)]);
      ChainingBalances(g, s, o, rest);
      Outcome(rest.ok, rest.partial, rest.state, o.bodies + rest.bodies, o.moments + rest.moments)
  }

  /** A descent from a fresh context runs at most as many rule bodies as the cap allows, never deeper than the
      depth cap, never with an element active twice at one position, and leaves depth and stack as they were. */
  lemma DescentIsBounded(g: Grammar, world: World, element: nat, style: Style)
    requires g.Valid() && world.cursor <= g.size && element < g.elements
    ensures var s := State(world, 0, 0, []);
            var o := Descent(g, s, element, style);
            && o.bodies == o.state.entries <= g.maxEntries && o.state.depth == 0 && o.state.active == []
            && forall i: nat :: i < |o.moments| ==>
                 && o.moments[i].depth <= MAX_DEPTH && Distinct(o.moments[i].active) && o.moments[i].depth <= |o.moments[i].active|
                 && o.moments[i].entries <= o.state.entries
  {
    hide Descent;
    var o := Descent(g, State(world, 0, 0, []), element, style);
    forall i: nat | i < |o.moments|
      ensures Valid(g, o.moments[i]) && o.moments[i].entries <= o.state.entries
    {
      assert Between(g, State(world, 0, 0, []), o.moments[i], o.state.entries);
    }
  }

  /** An element's body runs exactly if its entry is free of budget, pair and depth: fewer entries than the cap, no active
      element of the same kind at this position, and a depth below 24; outside a probe, only while recovery is active. */
  lemma EntryRunsIff(g: Grammar, s: State, element: nat, style: Style)
    requires Valid(g, s) && element < g.elements
    ensures var o := Descent(g, s, element, style);
            o.moments != [] <==>
              && (style == Probe || !g.inactive(s.world))
              && (style == Rule ==> s.entries < g.maxEntries && s.depth < 24)
              && forall i: nat :: i < |s.active| ==> s.active[i].element != element || s.active[i].cursor != s.world.cursor
    ensures var o := Descent(g, s, element, style);
            o.moments != [] ==>
              && o.moments[0].world == s.world && o.moments[0].active == s.active + [Entry(element, s.world.cursor)]
              && (style == Rule ==> o.bodies >= 1 && o.moments[0].depth == s.depth + 1 && o.moments[0].entries == s.entries + 1)
              && (style != Rule ==> o.moments[0].depth == s.depth && o.moments[0].entries == s.entries)
  {
    hide Balanced, Body, Unused, Valid;
  }

  /** A descent that runs its body answers what that does; the outermost rule also accepts a partial match. */
  lemma DescentAnswers(g: Grammar, s: State, element: nat, style: Style)
    requires Valid(g, s) && element < g.elements && Descent(g, s, element, style).moments != []
    ensures var o := Descent(g, s, element, style);
            var start := State(s.world, if style == Rule then s.entries + 1 else s.entries, if style == Rule then s.depth + 1 else s.depth,
                               s.active + [Entry(element, s.world.cursor)]);
            && Valid(g, start)
            && var body := Body(g, start, element, style, s.world, []);
               && (o.ok <==> body.ok || (style == Rule && body.partial && s.active == []))
               && o.moments == [start] + body.moments && o.state == body.state.(depth := s.depth, active := s.active)
  {
    hide Body, Unused, Valid, Between;
    assert Admits(g, s, element, style) && (style == Probe || !g.inactive(s.world));
    EnteredIsValid(g, s, element, style);
    assert |Entered(s, element, style).active| == |s.active| + 1;
  }

  /** One that does not is a strict parse while recovery is off, and a clean refusal otherwise. */
  lemma DescentRefuses(g: Grammar, s: State, element: nat, style: Style)
    requires Valid(g, s) && element < g.elements && Descent(g, s, element, style).moments == []
    ensures var o := Descent(g, s, element, style);
            if style != Probe && g.inactive(s.world) then
              o.ok == g.accepts(element, s.world) && o.state == s.(world := g.strict(element, s.world))
            else !o.ok && o.state == s
  {
    hide Body, Unused, Valid, Balanced;
  }

  lemma ActionsFit(g: Grammar, s: State, element: nat, style: Style, entry: World, history: seq<Event>)
    requires Valid(g, s)
    ensures var a := g.act(element, style, entry, history);
            && (!a.Finish? ==> |history| < g.limit(element, style, entry))
            && (a.Move? ==> Valid(g, s.(world := a.to)))
            && (a.Descend? ==> a.element < g.elements)
  {
  }

  /** One action of a body at a time. */
  lemma BodyUnfolds(g: Grammar, s: State, element: nat, style: Style, entry: World, history: seq<Event>)
    requires Valid(g, s)
    ensures var o := Body(g, s, element, style, entry, history);
            var a := g.act(element, style, entry, history);
            && (a.Finish? ==> o == Outcome(a.matched, a.partial, s, 0, []))
            && (a.Move? ==> o == Body(g, s.(world := a.to), element, style, entry, history + [Moved(a.to)]))
            && (a.Descend? ==>
                  var first := Descent(g, s, a.element, a.style);
                  var rest := Body(g, first.state, element, style, entry, history + [Returned(first.ok, first.state.world)]);
                  o == Outcome(rest.ok, rest.partial, rest.state, first.bodies + rest.bodies, first.moments + rest.moments))
  {
    hide Valid, Unused, Descent, Remaining, Balanced;
  }

  lemma DescentReturns(g: Grammar, s: State, element: nat, style: Style)
    requires Valid(g, s) && element < g.elements
    ensures var o := Descent(g, s, element, style); Valid(g, o.state) && o.state.active == s.active
  {
    hide Descent, Valid;
  }

  lemma MomentsChain(before: seq<State>, first: seq<State>, rest: seq<State>)
    ensures before + (first + rest) == before + first + rest
  {
  }

  // The mutable context ---------------------------------------------------------------

  class DescentContext {
    const grammar: Grammar
    var world: World
    var entries: nat
    var depth: nat
    var active: seq<Entry>
    /** The rule bodies run, and the state at the start of every body. */
    ghost var bodies: nat
    ghost var moments: seq<State>

    ghost function Now(): State
      reads this
    {
      State(world, entries, depth, active)
    }

    constructor (g: Grammar, world: World)
      requires g.Valid() && world.cursor <= g.size
      ensures grammar == g && Now() == State(world, 0, 0, []) && Valid(grammar, Now()) && bodies == 0 && moments == []
    {
      grammar, this.world := g, world;
      entries, depth, active := 0, 0, [];
      bodies, moments := 0, [];
    }

    /** The guards of an entry, in their order, and the counters they hold until the body is left. */
    method TryEnter(element: nat, style: Style) returns (ok: bool)
      modifies this`entries, this`depth, this`active, this`bodies, this`moments
      ensures ok == Admits(grammar, old(Now()), element, style)
      ensures ok ==> && Now() == Entered(old(Now()), element, style)
                     && bodies == old(bodies) + (if style == Rule then 1 else 0) && moments == old(moments) + [Now()]
      ensures !ok ==> Now() == old(Now()) && bodies == old(bodies) && moments == old(moments)
    {
      if style == Rule && entries >= grammar.maxEntries {
        return false;
      }
      if Entry(element, world.cursor) in active {
        return false;
      }
      if style == Rule {
        if depth >= MAX_DEPTH {
          return false;
        }
        depth := depth + 1;
        entries := entries + 1;
        bodies := bodies + 1;
      }
      active := active + [Entry(element, world.cursor)];
      moments := moments + [Now()];
      return true;
    }

    method Leave(style: Style)
      requires active != [] && (style == Rule ==> depth > 0)
      modifies this`depth, this`active
      ensures active == old(active)[..|old(active)| - 1] && depth == old(depth) - (if style == Rule then 1 else 0)
    {
      active := active[..|active| - 1];
      if style == Rule {
        depth := depth - 1;
      }
    }

    method EnterElement(element: nat, style: Style) returns (ok: bool)
      requires Valid(grammar, Now()) && element < grammar.elements
      modifies this
      ensures var o := Descent(grammar, old(Now()), element, style);
              ok == o.ok && Now() == o.state && bodies == old(bodies) + o.bodies && moments == old(moments) + o.moments
      decreases |Unused(grammar, active)|, 0, 0
    {
      hide Valid, Unused, Admits, Body;
      if style != Probe && grammar.inactive(world) {
        ok := grammar.accepts(element, world);
        world := grammar.strict(element, world);
        return;
      }
      var start := world;
      ok := TryEnter(element, style);
      if !ok {
        return;
      }
      EnteringUsesAPair(grammar, old(Now()), element, style);
      var partial;
      ok, partial := RunBody(element, style, start);
      ok := ok || (style == Rule && partial && |active| == 1);
      Leave(style);
      assert active == old(active);
    }

    method RunBody(element: nat, style: Style, entry: World) returns (ok: bool, partial: bool)
      requires Valid(grammar, Now())
      modifies this
      ensures var o := Body(grammar, old(Now()), element, style, entry, []);
              && ok == o.ok && partial == o.partial && Now() == o.state
              && bodies == old(bodies) + o.bodies && moments == old(moments) + o.moments
      decreases |Unused(grammar, active)|, 1, 0
    {
      hide Valid, Unused, Descent, Body, Balanced, Between, Admits;
      var history: seq<Event> := [];
      ghost var whole := Body(grammar, Now(), element, style, entry, []);
      while true
        invariant Valid(grammar, Now()) && active == old(active)
        invariant var o := Body(grammar, Now(), element, style, entry, history);
                  && whole.ok == o.ok && whole.partial == o.partial && whole.state == o.state
                  && old(bodies) + whole.bodies == bodies + o.bodies && old(moments) + whole.moments == moments + o.moments
        decreases Remaining(grammar, element, style, entry, history)
      {
        ActionsFit(grammar, Now(), element, style, entry, history);
        BodyUnfolds(grammar, Now(), element, style, entry, history);
        match grammar.act(element, style, entry, history) {
          case Finish(matched, offered) =>
            return matched, offered;
          case Move(to) =>
            world := to;
            history := history + [Moved(to)];
          case Descend(inner, how) =>
            DescentReturns(grammar, Now(), inner, how);
            ghost var first := Descent(grammar, Now(), inner, how);
            ghost var after := history + [Returned(first.ok, first.state.world)];
            MomentsChain(moments, first.moments, Body(grammar, first.state, element, style, entry, after).moments);
            var matched := EnterElement(inner, how);
            history := history + [Returned(matched, world)];
        }
      }
    }
  }
}
