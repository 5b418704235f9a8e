/** The edit script a recovery attempt builds: how it replays what was committed before, and how it
    lies on the text. */
module RecoveryScript {
  import opened Options
  import opened StrictContext
  import opened RecoveryState

  /** The insertion or replacement a step records. */
  ghost function EntryOf(c: Config, s: State, step: Step): Option<Edit> {
    if !Accepts(c, s, step) then None
    else
      match step
      case Insert(element) => Some(Insertion(s, element))
      case InsertGap(position, message, _) => Some(Gap(position, message))
      case Replace(end, element, _, _, _) => Some(Replacement(s, end, element))
      case _ => None
  }

  ghost predicate Deletes(c: Config, s: State, step: Step) {
    step.Delete? && Accepts(c, s, step)
  }

  ghost predicate Bridges(c: Config, s: State, step: Step) {
    step.ExtendDelete? && Accepts(c, s, step)
  }

  /** What a delete or a bridge uses up. */
  predicate UsesUp(c: Config, replayed: nat, cursor: nat) {
    PendingCommitted(c, replayed) && c.committed[replayed].kind == Deleted && c.committed[replayed].end <= cursor
  }

  /** What every step does to the script, and where it leaves the cursor. */
  ghost predicate Scripted(c: Config, s: State, step: Step, t: State) {
    var entry := EntryOf(c, s, step);
    && s.view.cursor <= t.view.cursor <= c.size
    && (if entry.Some? then
          && t.script == Appended(c, s.script, entry.value).(bridge := t.script.bridge) && t.script.bridge == None
          && s.view.cursor <= entry.value.begin <= entry.value.end <= t.view.cursor
        else if Deletes(c, s, step) then
          && s.view.cursor < s.view.cursor + c.width(s.view.cursor) <= t.view.cursor
          && t.script == WithDelete(s.script, s.view.cursor, s.view.cursor + c.width(s.view.cursor)).(replayed := t.script.replayed)
          && t.script.replayed == (if UsesUp(c, s.script.replayed, t.view.cursor) then s.script.replayed + 1 else s.script.replayed)
        else if Bridges(c, s, step) then
          && s.view.cursor < t.view.cursor
          && t.script == Script(s.script.edits, t.script.replayed, Some(Bridge(s.view.cursor, t.view.cursor)))
          && t.script.replayed == (if UsesUp(c, s.script.replayed, t.view.cursor) then s.script.replayed + 1 else s.script.replayed)
        else
          && t.script == s.script.(bridge := t.script.bridge)
          && (t.script.bridge == None || (t.script.bridge == s.script.bridge && t.view.cursor == s.view.cursor)))
  }

  lemma SkippedScript(c: Config, s: State, skipper: Skipper)
    requires s.view.Valid()
    ensures var t := Skipped(c, s, skipper); t.script == s.script.(bridge := None) && t.view.cursor == skipper.next(s.view.cursor)
  {
    hide Refreshed;
  }

  lemma LeafedScript(c: Config, s: State, begin: nat, end: nat, element: Element, hidden: bool)
    requires s.view.Valid()
    ensures var t := Leafed(c, s, begin, end, element, hidden); t.script == s.script.(bridge := None) && t.view.cursor == end
  {
    hide Refreshed, Hooked;
  }

  lemma DeletedScript(c: Config, s: State, skipper: Skipper)
    requires Enabled(c, s, Step.Delete(skipper)) && AcceptsDelete(c, s) && c.Valid()
    ensures Scripted(c, s, Step.Delete(skipper), DeletedStep(c, s, skipper))
  {
    assert Settle(c, Erased(c, s)).script == Erased(c, s).script && Settle(c, Erased(c, s)).view == Erased(c, s).view;
    hide Merges, Noted, Settle, CanDelete, CanAfford, OutsideWindow, Skipped;
    SkippedScript(c, Erased(c, s), skipper);
  }

  lemma BridgedScript(c: Config, s: State, skipper: Skipper)
    requires Enabled(c, s, Step.ExtendDelete(skipper)) && AcceptsBridge(c, s, skipper)
    ensures Scripted(c, s, Step.ExtendDelete(skipper), BridgedStep(c, s, skipper))
  {
    hide Refreshed;
  }

  lemma RefusedScript(c: Config, s: State, step: Step)
    ensures var t := Refused(c, s, step);
            t.view == s.view && t.script == s.script.(bridge := t.script.bridge) && (t.script.bridge == None || t.script.bridge == s.script.bridge)
  {
    hide KeepsBridge;
  }

  lemma AcceptedEdits(c: Config, s: State, step: Step)
    requires Accepts(c, s, step)
    ensures step.InsertGap? ==> step.position <= c.size
    ensures step.Replace? ==> s.view.cursor < step.end <= c.size
  {
  }

  lemma NextScripted(c: Config, s: State, step: Step)
    requires c.Valid() && Enabled(c, s, step)
    ensures Scripted(c, s, step, Next(c, s, step)) && Next(c, s, step).view.cursor <= c.size
  {
    hide AcceptsInsert, AcceptsGap, AcceptsReplace, AcceptsDelete, AcceptsBridge;
    hide Refused, Leafed, Skipped, DeletedStep, BridgedStep, Noted, View.Append, WithDelete;
    if !Accepts(c, s, step) {
      RefusedScript(c, s, step);
    } else {
      match step
      case Skip(skipper) => SkippedScript(c, s, skipper);
      case Leaf(begin, end, element, hidden) => LeafedScript(c, s, begin, end, element, hidden);
      case InsertGap(position, message, element) =>
        AcceptedEdits(c, s, step);
        LeafedScript(c, Edited(c, s, Gap(position, message), INSERT_COST), s.view.cursor, position, element, false);
      case Replace(end, element, price, hidden, _) =>
        AcceptedEdits(c, s, step);
        LeafedScript(c, Edited(c, s, Replacement(s, end, element), price), s.view.cursor, end, element, hidden);
      case Delete(skipper) => DeletedScript(c, s, skipper);
      case ExtendDelete(skipper) => BridgedScript(c, s, skipper);
      case _ =>
    }
  }

  // Replaying committed edits -------------------------------------------------------

  /** An entry stands for a committed edit: same kind, place and element; a delete begins inside the committed one. */
  predicate StandsFor(c: Config, e: Edit, committed: Edit) {
    && e.kind == committed.kind
    && match committed.kind
       case Deleted => committed.begin <= e.begin < committed.end
       case Inserted =>
         e.begin == committed.begin && e.end == committed.end && Equivalent(c, committed.element, e.element) && e.message == committed.message
       case Replaced => e.begin == committed.begin && e.end == committed.end && Equivalent(c, committed.element, e.element)
       case _ => false
  }

  /** An accepted edit made while committed ones are pending stands for the next of them. */
  lemma PendingEditsAreReplays(c: Config, s: State, step: Step)
    requires PendingCommitted(c, s.script.replayed)
    ensures EntryOf(c, s, step).Some? ==> StandsFor(c, EntryOf(c, s, step).value, c.committed[s.script.replayed])
                                          && EntryOf(c, s, step).value.kind != Deleted
    ensures Deletes(c, s, step) || Bridges(c, s, step) ==> MatchesDelete(c, s.script.replayed, s.view.cursor)
  {
    hide Equivalent, CanEditAt, CanAfford, OutsideWindow, CanDelete, ClusterAllowed;
  }

  /** For each entry, the committed edit it replays, if any. */
  type Origins = seq<Option<nat>>

  ghost function OriginsAfter(c: Config, s: State, step: Step, origins: Origins): Origins {
    if EntryOf(c, s, step).Some? || (Deletes(c, s, step) && !Merges(s.script, s.view.cursor)) then
      origins + [if PendingCommitted(c, s.script.replayed) then Some(s.script.replayed) else None]
    else origins
  }

  predicate Before(a: Option<nat>, b: Option<nat>) {
    b.Some? ==> a.Some? && a.value <= b.value
  }

  ghost predicate EntryFaithful(c: Config, e: Edit, origin: Option<nat>, replayed: nat) {
    match origin
    case None => replayed >= |c.committed|
    case Some(k) => k < |c.committed| && k <= replayed && StandsFor(c, e, c.committed[k]) && (e.kind != Deleted ==> k < replayed)
  }

  ghost predicate Reappears(c: Config, origins: Origins, k: nat) {
    exists i: nat :: i < |origins| && origins[i] == Some(k)
  }

  /** The script replays the committed edits in order, each insertion and replacement exactly once, before anything new. */
  ghost predicate Faithful(c: Config, r: Script, origins: Origins) {
    && |origins| == |r.edits| && r.replayed <= |c.committed|
    && (forall i: nat :: i < |r.edits| ==> EntryFaithful(c, r.edits[i], origins[i], r.replayed))
    && (forall i: nat, j: nat :: i < j < |r.edits| ==> Before(origins[i], origins[j]))
    && (forall i: nat, j: nat :: i < j < |r.edits| && origins[i] == origins[j] && origins[i].Some? ==> r.edits[i].kind == Deleted)
    && (forall k: nat :: k < r.replayed ==>
          c.committed[k].kind == Deleted || ((c.committed[k].kind == Inserted || c.committed[k].kind == Replaced) && Reappears(c, origins, k)))
  }

  lemma AppendingKeepsFaith(c: Config, r: Script, origins: Origins, e: Edit, replayed': nat)
    requires Faithful(c, r, origins)
    requires if PendingCommitted(c, r.replayed) then
               StandsFor(c, e, c.committed[r.replayed]) && (replayed' == r.replayed + 1 || (replayed' == r.replayed && e.kind == Deleted))
             else replayed' == r.replayed
    ensures Faithful(c, Script(r.edits + [e], replayed', None), origins + [if PendingCommitted(c, r.replayed) then Some(r.replayed) else None])
  {
    assert PendingCommitted(c, r.replayed) ==> e.kind == c.committed[r.replayed].kind && (e.kind == Inserted || e.kind == Replaced || e.kind == Deleted);
    hide StandsFor;
    var origin := if PendingCommitted(c, r.replayed) then Some(r.replayed) else None;
    var origins' := origins + [origin];
    assert origins'[|origins|] == origin;
    forall k: nat | k < r.replayed && Reappears(c, origins, k)
      ensures Reappears(c, origins', k)
    {
      var i: nat :| i < |origins| && origins[i] == Some(k);
      assert origins'[i] == Some(k);
    }
  }

  /** Making the last delete longer, or using up a committed delete, changes nothing of this. */
  lemma UsingUpKeepsFaith(c: Config, r: Script, edits: seq<Edit>, replayed': nat, bridge: Option<Bridge>, origins: Origins)
    requires Faithful(c, r, origins) && |edits| == |r.edits|
    requires forall i: nat :: i < |edits| ==> edits[i] == r.edits[i] || (r.edits[i].kind == Deleted && edits[i] == r.edits[i].(end := edits[i].end))
    requires replayed' == r.replayed || (replayed' == r.replayed + 1 && PendingCommitted(c, r.replayed) && c.committed[r.replayed].kind == Deleted)
    ensures Faithful(c, Script(edits, replayed', bridge), origins)
  {
    forall i: nat | i < |edits|
      ensures EntryFaithful(c, edits[i], origins[i], replayed')
    {
      assert EntryFaithful(c, r.edits[i], origins[i], r.replayed);
    }
  }

  lemma MergesIntoADelete(r: Script, cursor: nat)
    ensures Merges(r, cursor) ==> r.edits != [] && r.edits[|r.edits| - 1].kind == Deleted
  {
  }

  lemma DeletionStandsFor(c: Config, replayed: nat, e: Edit)
    requires MatchesDelete(c, replayed, e.begin) && e.kind == Deleted
    ensures StandsFor(c, e, c.committed[replayed])
  {
  }

  /** Every step keeps the script faithful to the committed edits. */
  lemma NextKeepsFaith(c: Config, s: State, step: Step, origins: Origins)
    requires c.Valid() && Enabled(c, s, step) && Faithful(c, s.script, origins)
    ensures Faithful(c, Next(c, s, step).script, OriginsAfter(c, s, step, origins))
  {
    MergesIntoADelete(s.script, s.view.cursor);
    hide Next, Faithful, EntryOf, Deletes, Bridges, StandsFor, Merges, Enabled;
    var t := Next(c, s, step);
    NextScripted(c, s, step);
    if PendingCommitted(c, s.script.replayed) {
      PendingEditsAreReplays(c, s, step);
    }
    var cursor := s.view.cursor;
    if EntryOf(c, s, step).Some? {
      AppendingKeepsFaith(c, s.script, origins, EntryOf(c, s, step).value, t.script.replayed);
    } else if Deletes(c, s, step) && !Merges(s.script, cursor) {
      var e := Edit(Deleted, cursor, cursor + c.width(cursor), None, "");
      if PendingCommitted(c, s.script.replayed) {
        DeletionStandsFor(c, s.script.replayed, e);
      }
      AppendingKeepsFaith(c, s.script, origins, e, t.script.replayed);
    } else {
      UsingUpKeepsFaith(c, s.script, t.script.edits, t.script.replayed, t.script.bridge, origins);
    }
  }

  /** What is pending is replayed one edit at a time and in order: an insertion or a replacement by an entry
      that stands for it, a delete by deleting or bridging from inside it until the cursor is past it. */
  lemma CommittedEditsAreConsumedInOrder(c: Config, s: State, step: Step)
    requires c.Valid() && Enabled(c, s, step) && PendingCommitted(c, s.script.replayed)
    ensures var t := Next(c, s, step);
            var next := c.committed[s.script.replayed];
            && s.script.replayed <= t.script.replayed <= s.script.replayed + 1
            && (t.script.replayed > s.script.replayed ==>
                  match next.kind
                  case Deleted =>
                    && (step.Delete? || step.ExtendDelete?) && next.begin <= s.view.cursor < next.end <= t.view.cursor
                  case _ =>
                    && |t.script.edits| == |s.script.edits| + 1 && t.script.edits[..|s.script.edits|] == s.script.edits
                    && StandsFor(c, t.script.edits[|s.script.edits|], next))
            && (t.script.edits != s.script.edits ==>
                  t.script.replayed > s.script.replayed || (step.Delete? && next.kind == Deleted && next.begin <= s.view.cursor < next.end))
  {
    assert Deletes(c, s, step) ==> step.Delete?;
    assert Bridges(c, s, step) ==> step.ExtendDelete?;
    PendingEditsAreReplays(c, s, step);
    assert EntryOf(c, s, step).Some? ==> c.committed[s.script.replayed].kind != Deleted;
    hide Next, EntryOf, Deletes, Bridges, StandsFor, Merges, Enabled;
    NextScripted(c, s, step);
  }

  // The script on the text ------------------------------------------------------------

  /** Entries in text order, apart from each other, none past the cursor. */
  predicate Laid(edits: seq<Edit>, cursor: nat) {
    && (forall i: nat :: i < |edits| ==> edits[i].begin <= edits[i].end <= cursor)
    && (forall i: nat, j: nat :: i < j < |edits| ==> edits[i].end <= edits[j].begin)
  }

  /** A bridge begins before it ends, at the cursor. */
  predicate BridgeOk(s: State) {
    s.script.bridge.Some? ==> s.script.bridge.value.begin < s.script.bridge.value.end == s.view.cursor
  }

  lemma NextKeepsBridge(c: Config, s: State, step: Step)
    requires c.Valid() && Enabled(c, s, step) && BridgeOk(s)
    ensures BridgeOk(Next(c, s, step))
  {
    hide Next, EntryOf, Deletes, Bridges, Merges, Enabled;
    NextScripted(c, s, step);
  }

  lemma NextKeepsScriptLaid(c: Config, s: State, step: Step)
    requires c.Valid() && Enabled(c, s, step) && BridgeOk(s) && Laid(s.script.edits, s.view.cursor)
    ensures var t := Next(c, s, step); Laid(t.script.edits, t.view.cursor)
  {
    hide Next, EntryOf, Deletes, Bridges, Enabled;
    NextScripted(c, s, step);
  }
}
