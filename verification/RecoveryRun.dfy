/** Whole recovery attempts: any sequence of steps, marks, rewinds and dropped marks. */
module RecoveryRun {
  import opened Options
  import opened StrictContext
  import opened RecoveryState
  import opened RecoveryPhase
  import opened RecoveryScript
  import opened RecoveryRewind
  import opened RecoveryFastPath

  /** What the branch that led to a state remembers; a rewind restores it with the state. */
  datatype Past = Past(history: History, origins: Origins)

  datatype LiveMark = LiveMark(saved: Saved, past: Past)

  /** The state, the branch's past, the joins of the whole run, whether every rewind so far was exact, and the live marks. */
  datatype Machine = Machine(now: State, past: Past, joins: Joins, exact: bool, marks: seq<LiveMark>)

  datatype Action = Do(step: Step) | TakeMark | DropMark | RewindTo(mark: nat)

  /** Nodes open at a live mark stay open, and children it saw keep their labels; marks are dropped innermost first. */
  ghost predicate Legal(c: Config, m: Machine, a: Action) {
    match a
    case Do(step) =>
      && Enabled(c, m.now, step)
      && forall k: nat :: k < |m.marks| ==> Spares(m.marks[k].saved.state.view, m.now.view, step)
    case TakeMark => m.now.view.Valid()
    case DropMark => m.marks != []
    case RewindTo(k) =>
      && k < |m.marks| && m.marks[k].saved.state.view.Valid() && m.marks[k].saved.joins <= |m.joins|
      && CanRewind(m.now, MarkedAt(m.marks[k].saved.state))
  }

  /** One action; `always` takes the slow path everywhere. */
  ghost function Act(always: bool, c: Config, m: Machine, a: Action): Machine
    requires Legal(c, m, a)
  {
    match a
    case Do(step) =>
      var past := Past(Tracked(c, m.now, step, m.past.history), OriginsAfter(c, m.now, step, m.past.origins));
      m.(now := if always then NextAlways(c, m.now, step) else Next(c, m.now, step), past := past,
         joins := JoinsAfter(c, m.now, step, m.joins))
    case TakeMark => m.(marks := m.marks + [LiveMark(Saved(m.now, |m.joins|), m.past)])
    case DropMark => m.(marks := m.marks[..|m.marks| - 1])
    case RewindTo(k) =>
      Machine(Rewound(m.now, MarkedAt(m.marks[k].saved.state)), m.marks[k].past, m.joins,
              m.exact && Untouched(m.marks[k].saved, m.joins), m.marks[..k + 1])
  }

  ghost predicate LegalRun(always: bool, c: Config, m: Machine, actions: seq<Action>)
    decreases |actions|
  {
    actions == [] || (Legal(c, m, actions[0]) && LegalRun(always, c, Act(always, c, m, actions[0]), actions[1..]))
  }

  ghost function Run(always: bool, c: Config, m: Machine, actions: seq<Action>): Machine
    requires LegalRun(always, c, m, actions)
    decreases |actions|
  {
    if actions == [] then m else Run(always, c, Act(always, c, m, actions[0]), actions[1..])
  }

  /** An attempt starts with a fresh context, usually right after its edit window was set. */
  ghost predicate Start(s: State) {
    exists mode: Mode :: s == Fresh(mode) || exists w: Option<EditWindow> :: s == Windowed(Fresh(mode), w)
  }

  ghost function Begin(s: State): Machine {
    Machine(s, Past(History(0, false, None, 0, 0, false), []), [], true, [])
  }

  // The invariant ---------------------------------------------------------------------

  ghost predicate Good(c: Config, s: State, past: Past) {
    && s.view.Valid() && s.view.cursor <= c.size
    && PhaseOk(c, s.phase, s.script.replayed) && HistoryOk(c, s.phase, past.history)
    && BudgetOk(c, s.phase, s.budget, past.history.overrun)
    && Faithful(c, s.script, past.origins) && BridgeOk(s)
  }

  ghost predicate Nested(a: Saved, b: Saved)
    requires a.state.view.Valid()
  {
    Extends(a.state.view, b.state.view) && a.state.view.cursor <= b.state.view.cursor && |a.state.script.edits| <= |b.state.script.edits|
    && BridgeSince(a.state, b.state)
  }

  ghost predicate Inv(c: Config, m: Machine) {
    && Good(c, m.now, m.past)
    && (forall k: nat :: k < |m.marks| ==> Good(c, m.marks[k].saved.state, m.marks[k].past) && Since(m.marks[k].saved, m.now, m.joins))
    && (forall i: nat, k: nat :: i < k < |m.marks| ==> Nested(m.marks[i].saved, m.marks[k].saved))
    && (m.exact ==>
          && Laid(m.now.script.edits, m.now.view.cursor)
          && forall k: nat :: k < |m.marks| ==> Laid(m.marks[k].saved.state.script.edits, m.marks[k].saved.state.view.cursor))
  }

  lemma StartIsGood(c: Config, s: State)
    requires Start(s)
    ensures Inv(c, Begin(s))
  {
  }

  lemma StepKeepsGood(c: Config, s: State, past: Past, step: Step)
    requires c.Valid() && Enabled(c, s, step) && Good(c, s, past)
    ensures Good(c, Next(c, s, step), Past(Tracked(c, s, step, past.history), OriginsAfter(c, s, step, past.origins)))
  {
    hide Next, Enabled, PhaseOk, HistoryOk, BudgetOk, Faithful, BridgeOk, Tracked, OriginsAfter, View.Valid, Extends;
    NextView(c, s, step);
    NextScripted(c, s, step);
    NextKeepsPhase(c, s, step);
    NextKeepsHistory(c, s, step, past.history);
    NextKeepsBudget(c, s, step, past.history);
    NextKeepsFaith(c, s, step, past.origins);
    NextKeepsBridge(c, s, step);
  }

  lemma StepKeepsMark(c: Config, m: Machine, step: Step, k: nat)
    requires c.Valid() && Inv(c, m) && Legal(c, m, Do(step)) && k < |m.marks|
    ensures Since(m.marks[k].saved, Next(c, m.now, step), JoinsAfter(c, m.now, step, m.joins))
  {
    hide Since, Nested, Laid, Next, Enabled, JoinsAfter;
    NextKeepsSince(c, m.now, step, m.marks[k].saved, m.joins);
  }

  lemma StepKeepsInv(c: Config, m: Machine, step: Step)
    requires c.Valid() && Inv(c, m) && Legal(c, m, Do(step))
    ensures Inv(c, Act(false, c, m, Do(step)))
  {
    assert BridgeOk(m.now);
    hide Good, Since, Nested, Laid, Next, NextAlways, Enabled, JoinsAfter, Tracked, OriginsAfter, View.Valid;
    StepKeepsGood(c, m.now, m.past, step);
    forall k: nat | k < |m.marks|
      ensures Since(m.marks[k].saved, Next(c, m.now, step), JoinsAfter(c, m.now, step, m.joins))
    {
      StepKeepsMark(c, m, step, k);
    }
    if m.exact {
      NextKeepsScriptLaid(c, m.now, step);
    }
  }

  lemma MarkKeepsInv(c: Config, m: Machine)
    requires Inv(c, m)
    ensures Legal(c, m, TakeMark) && Inv(c, Act(false, c, m, TakeMark))
  {
    hide PhaseOk, HistoryOk, BudgetOk, Faithful, BridgeOk, Laid;
    var saved := Saved(m.now, |m.joins|);
    var n := Act(false, c, m, TakeMark);
    assert m.joins[saved.joins..] == [];
    assert Since(saved, m.now, m.joins);
    forall i: nat, k: nat | i < k < |n.marks|
      ensures Nested(n.marks[i].saved, n.marks[k].saved)
    {
      if k == |m.marks| {
        assert Since(m.marks[i].saved, m.now, m.joins);
      }
    }
  }

  lemma RestoringKeepsGood(c: Config, live: LiveMark, now: State, joins: Joins)
    requires Good(c, live.saved.state, live.past) && Since(live.saved, now, joins)
    ensures Good(c, Restored(live.saved.state, now), live.past)
  {
    hide PhaseOk, HistoryOk, BudgetOk, Faithful;
    var s := live.saved.state;
    var edits := now.script.edits[..|s.script.edits|];
    forall i: nat | i < |edits|
      ensures edits[i] == s.script.edits[i] || (s.script.edits[i].kind == Deleted && edits[i] == s.script.edits[i].(end := edits[i].end))
    {
      assert EntryKept(s.script.edits[i], now.script.edits[i], i in joins[live.saved.joins..]);
    }
    UsingUpKeepsFaith(c, s.script, edits, s.script.replayed, s.script.bridge, live.past.origins);
  }

  lemma RestoringKeepsOlder(older: Saved, saved: Saved, now: State, joins: Joins)
    requires Since(older, now, joins) && Since(saved, now, joins)
    requires Nested(older, saved)
    ensures Since(older, Restored(saved.state, now), joins)
  {
    var before, kept := older.state.script.edits, now.script.edits[..|saved.state.script.edits|];
    forall i: nat | i < |before|
      ensures EntryKept(before[i], kept[i], i in joins[older.joins..])
    {
      assert EntryKept(before[i], now.script.edits[i], i in joins[older.joins..]);
    }
  }

  /** Going back to mark `k` keeps what the marks up to it need. */
  lemma RewindKeepsMarks(c: Config, m: Machine, k: nat, i: nat)
    requires Inv(c, m) && i <= k < |m.marks|
    ensures |m.marks[k].saved.state.script.edits| <= |m.now.script.edits|
    ensures Since(m.marks[i].saved, Restored(m.marks[k].saved.state, m.now), m.joins)
  {
    assert Since(m.marks[k].saved, m.now, m.joins) && Since(m.marks[i].saved, m.now, m.joins);
    assert i == k ==> Nested(m.marks[i].saved, m.marks[k].saved);
    hide Good, Laid;
    RestoringKeepsOlder(m.marks[i].saved, m.marks[k].saved, m.now, m.joins);
  }

  lemma RewindLandsOn(c: Config, m: Machine, k: nat)
    requires k < |m.marks| && Since(m.marks[k].saved, m.now, m.joins)
    ensures Legal(c, m, RewindTo(k))
    ensures var live := m.marks[k];
            && |live.saved.state.script.edits| <= |m.now.script.edits| && live.saved.joins <= |m.joins|
            && Act(false, c, m, RewindTo(k)) ==
               Machine(Restored(live.saved.state, m.now), live.past, m.joins, m.exact && Untouched(live.saved, m.joins), m.marks[..k + 1])
            && (Untouched(live.saved, m.joins) ==> Restored(live.saved.state, m.now).script.edits == live.saved.state.script.edits)
  {
    var live := m.marks[k];
    hide Since, MarkedAt, CanRewind, Rewound, Untouched;
    RewindRestores(live.saved, m.now, m.joins);
  }

  lemma RewindKeepsInv(c: Config, m: Machine, k: nat)
    requires Inv(c, m) && k < |m.marks|
    ensures Legal(c, m, RewindTo(k)) && Inv(c, Act(false, c, m, RewindTo(k)))
  {
    hide Act, Legal, Good, Since, Nested, Laid, Untouched;
    assert Since(m.marks[k].saved, m.now, m.joins);
    RewindLandsOn(c, m, k);
    var n := Act(false, c, m, RewindTo(k));
    RestoringKeepsGood(c, m.marks[k], m.now, m.joins);
    forall i: nat | i < |n.marks|
      ensures Since(n.marks[i].saved, n.now, n.joins)
    {
      RewindKeepsMarks(c, m, k, i);
    }
  }

  lemma DropKeepsInv(c: Config, m: Machine)
    requires Inv(c, m) && m.marks != []
    ensures Inv(c, Act(false, c, m, DropMark))
  {
    hide Good, Since, Laid;
  }

  lemma ActKeepsInv(c: Config, m: Machine, a: Action)
    requires c.Valid() && Inv(c, m) && Legal(c, m, a)
    ensures Inv(c, Act(false, c, m, a))
  {
    hide Inv;
    match a
    case Do(step) => StepKeepsInv(c, m, step);
    case TakeMark => MarkKeepsInv(c, m);
    case DropMark => DropKeepsInv(c, m);
    case RewindTo(k) => RewindKeepsInv(c, m, k);
  }

  /** Every run keeps the invariant. */
  lemma {:induction false} RunKeepsInv(c: Config, m: Machine, actions: seq<Action>)
    requires c.Valid() && Inv(c, m) && LegalRun(false, c, m, actions)
    ensures Inv(c, Run(false, c, m, actions))
    decreases |actions|
  {
    hide Inv, Legal, Act;
    if actions != [] {
      ActKeepsInv(c, m, actions[0]);
      RunKeepsInv(c, Act(false, c, m, actions[0]), actions[1..]);
    }
  }
}
