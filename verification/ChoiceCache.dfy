/** The generation-stamped cache of ordered-choice attempts. */
module ChoiceCache {
  import opened Options

  const WORD := 0x1_0000_0000
  const CAPACITY := 8192

  /** Every policy axis that can change the outcome of a choice; equality is field by field. */
  datatype Policy = Policy(
    followProbeFn: nat, followProbeData: nat,
    recoverableFollowProbeFn: nat, recoverableFollowProbeData: nat,
    recoverableFollowConsumesVisibleProbeFn: nat, recoverableFollowConsumesVisibleProbeData: nat,
    remainingEditBudget: nat, consecutiveDeletes: nat, editFloorOffset: nat,
    allowInsert: bool, allowDelete: bool, skipAfterDelete: bool,
    allowDestructiveWindowContinuation: bool, allowLeadingTerminalInsertScope: bool,
    inRecoveryPhase: bool, hadEdits: bool, insideEditWindow: bool, completedWindowContinuation: bool,
    frontierBlocked: bool, trackEditState: bool,
    committedRecoveryEditIndex: nat, remainingEditCount: nat, remainingConsecutiveDeletes: nat)

  datatype Key = Key(choice: nat, cursorOffset: nat, maxCursorOffset: nat,
                     furthestVisibleLeafCount: nat, currentVisibleLeafCount: nat, policy: Policy)

  /** A slot; key and value mean nothing while the generation is not the current one. */
  datatype Entry<V> = Entry(key: Key, value: V, generation: nat)

  class ChoiceRecoverCache<V(0)> {
    const entries: array<Entry<V>>
    const slot: Key -> nat
    var generation: nat
    var hits: nat
    var misses: nat
    var disabled: bool
    /** The stores since the last reset, oldest first. */
    ghost var history: seq<(Key, V)>

    /** The last store since the last reset that went to a slot. */
    static ghost function LastInSlot(history: seq<(Key, V)>, slot: Key -> nat, i: nat): Option<(Key, V)> {
      if history == [] then None
      else if slot(history[|history| - 1].0) == i then Some(history[|history| - 1])
      else LastInSlot(history[..|history| - 1], slot, i)
    }

    /** Stamps never run ahead of the epoch, and exactly the current ones mirror the history. */
    ghost predicate Valid()
      reads this, entries
    {
      && entries.Length == CAPACITY
      && (forall k: Key :: slot(k) < CAPACITY)
      && 1 <= generation < WORD
      && (forall i: nat :: i < CAPACITY ==> entries[i].generation <= generation)
      && (forall i: nat :: i < CAPACITY ==> Mirrors(entries[i], generation, LastInSlot(history, slot, i)))
    }

    static ghost predicate Mirrors(e: Entry<V>, generation: nat, last: Option<(Key, V)>) {
      if e.generation == generation then last == Some((e.key, e.value)) else last.None?
    }

    constructor (slot: Key -> nat)
      requires forall k: Key :: slot(k) < CAPACITY
      ensures Valid() && history == [] && this.slot == slot && !disabled && hits == 0 && misses == 0
      ensures fresh(entries)
    {
      var raw := new Entry<V>[CAPACITY];
      for i := 0 to CAPACITY
        invariant forall k: nat :: k < i ==> raw[k].generation == 0
        modifies raw
      {
        raw[i] := raw[i].(generation := 0);
      }
      entries := raw;
      this.slot := slot;
      generation, hits, misses, disabled, history := 1, 0, 0, false, [];
    }

    method SetDisabled(value: bool)
      requires Valid()
      modifies this`disabled
      ensures Valid() && disabled == value
    {
      disabled := value;
    }

    /** A hit is the last value stored in the key's slot since the last reset, provided it was for this key. */
    method TryGet(key: Key) returns (r: Option<V>)
      requires Valid()
      modifies this`hits, this`misses
      ensures Valid()
      ensures var last := LastInSlot(history, slot, slot(key));
              r == if !disabled && last.Some? && last.value.0 == key then Some(last.value.1) else None
      ensures hits == old(hits) + (if r.Some? then 1 else 0) && misses == old(misses) + (if r.None? then 1 else 0)
    {
      if disabled {
        misses := misses + 1;
        return None;
      }
      var entry := entries[slot(key)];
      assert Mirrors(entry, generation, LastInSlot(history, slot, slot(key)));
      if entry.generation != generation || entry.key != key {
        misses := misses + 1;
        return None;
      }
      hits := hits + 1;
      return Some(entry.value);
    }

    method Store(key: Key, value: V)
      requires Valid()
      modifies this`history, entries
      ensures Valid() && history == old(history) + [(key, value)]
    {
      ghost var before := history;
      entries[slot(key)] := Entry(key, value, generation);
      history := history + [(key, value)];
      assert history[..|history| - 1] == before;
    }

    /** Forgets every store, in one step unless the epoch wraps around to the never-written stamp. */
    method Reset()
      requires Valid()
      modifies this`generation, this`hits, this`misses, this`history, entries
      ensures Valid() && history == [] && hits == 0 && misses == 0
    {
      history := [];
      generation := (generation + 1) % WORD;
      if generation == 0 {
        for i := 0 to CAPACITY
          invariant forall k: nat :: k < i ==> entries[k].generation == 0
          modifies entries
        {
          entries[i] := entries[i].(generation := 0);
        }
        generation := 1;
      }
      hits, misses := 0, 0;
    }
  }

  /** The last store for a key since the last reset. */
  ghost function LastFor<V(0)>(history: seq<(Key, V)>, key: Key): Option<V> {
    if history == [] then None
    else if history[|history| - 1].0 == key then Some(history[|history| - 1].1)
    else LastFor(history[..|history| - 1], key)
  }

  /** What a hit returns is the value last stored for that key. */
  lemma {:induction false} HitIsLastStored<V(0)>(history: seq<(Key, V)>, slot: Key -> nat, key: Key)
    ensures var last := ChoiceRecoverCache<V>.LastInSlot(history, slot, slot(key));
            last.Some? && last.value.0 == key ==> LastFor(history, key) == Some(last.value.1)
  {
    if history != [] && slot(history[|history| - 1].0) != slot(key) {
      HitIsLastStored(history[..|history| - 1], slot, key);
    }
  }
}
