/** The direct-mapped cache of fuzzy results.  Slots own buffers on a heap the model makes explicit,
    so that freeing twice or leaking would be visible. */
module FuzzyCache {
  import opened Options
  import opened FuzzyCandidates
  import opened FuzzyMatcher
  import opened FuzzyScript
  import opened FuzzyText

  /** What a lookup is identified by: the addresses and sizes of both views, and the case mode. */
  datatype Key = Key(literalData: nat, literalSize: nat, inputData: nat, inputSize: nat, caseSensitive: bool)

  /** A slot; only `generation` means anything until it is not zero. */
  datatype Entry = Entry(key: Key, resultData: Option<nat>, generation: nat)

  const SLOT_COUNT := 4096

  /** Exactly the live slots are listed, each once. */
  ghost predicate Listed(es: seq<Entry>, live: seq<nat>) {
    && (forall i: nat :: i < |es| ==> (es[i].generation != 0 <==> i in live))
    && (forall a: nat, b: nat :: a < b < |live| ==> live[a] != live[b])
    && (forall a: nat :: a < |live| ==> live[a] < |es|)
  }

  /** A live slot owns the buffer it points at, and every buffer has its owner. */
  ghost predicate Owned(es: seq<Entry>, heap: map<nat, seq<Candidate>>, owner: map<nat, nat>) {
    && owner.Keys == heap.Keys
    && (forall h: nat :: h in heap ==> owner[h] < |es| && es[owner[h]].generation != 0 && es[owner[h]].resultData == Some(h))
    && (forall i: nat :: i < |es| && es[i].generation != 0 && es[i].resultData.Some? ==>
          es[i].resultData.value in heap && owner[es[i].resultData.value] == i)
  }

  /** What a slot holds. */
  ghost function Contents(e: Entry, heap: map<nat, seq<Candidate>>): seq<Candidate> {
    if e.resultData.Some? && e.resultData.value in heap then heap[e.resultData.value] else []
  }

  /** The memory the keys' views point into, by address and size, and which codepoints can be part of a word. */
  datatype Texts = Texts(at: (nat, nat) -> seq<Byte>, identifier: nat -> bool) {
    function Literal(key: Key): seq<Byte> { at(key.literalData, key.literalSize) }
    function Input(key: Key): seq<Byte> { at(key.inputData, key.inputSize) }

    /** The result is what computing the key's texts afresh may give. */
    ghost predicate Current(key: Key, result: seq<Candidate>) {
      Answers(Literal(key), Input(key), key.caseSensitive, identifier, result)
    }
  }

  /** Every live slot holds what computing its key afresh may give. */
  ghost predicate Transparent(es: seq<Entry>, heap: map<nat, seq<Candidate>>, texts: Texts) {
    forall i: nat :: i < |es| && es[i].generation != 0 ==> texts.Current(es[i].key, Contents(es[i], heap))
  }

  ghost function Freed<T>(m: map<nat, T>, e: Entry): map<nat, T> {
    if e.generation != 0 && e.resultData.Some? then m - {e.resultData.value} else m
  }

  lemma StoreKeepsListed(es: seq<Entry>, live: seq<nat>, index: nat, e: Entry)
    requires index < |es| && Listed(es, live) && e.generation != 0
    ensures Listed(es[index := e], if es[index].generation != 0 then live else live + [index])
  {
    var now := if es[index].generation != 0 then live else live + [index];
    forall i: nat | i < |es|
      ensures es[index := e][i].generation != 0 <==> i in now
    {
      assert i in now <==> i in live || i == index;
    }
  }

  /** The heap after a store: the old buffer of the slot given back, the new one if any added. */
  ghost predicate Stored<T>(m: map<nat, T>, m': map<nat, T>, was: Entry, e: Entry, v: T) {
    m' == if e.resultData.None? then Freed(m, was) else Freed(m, was)[e.resultData.value := v]
  }

  lemma StoreKeepsOwned(es: seq<Entry>, heap: map<nat, seq<Candidate>>, owner: map<nat, nat>, index: nat, e: Entry, result: seq<Candidate>,
                        heap': map<nat, seq<Candidate>>, owner': map<nat, nat>)
    requires index < |es| && Owned(es, heap, owner) && e.generation != 0
    requires e.resultData.Some? ==> e.resultData.value !in heap
    requires Stored(heap, heap', es[index], e, result) && Stored(owner, owner', es[index], e, index)
    ensures Owned(es[index := e], heap', owner')
  {
    var now := es[index := e];
    forall i: nat | i < |now| && now[i].generation != 0 && now[i].resultData.Some?
      ensures now[i].resultData.value in heap' && owner'[now[i].resultData.value] == i
    {
      if i != index {
        assert now[i] == es[i];
      }
    }
    forall h: nat | h in heap'
      ensures owner'[h] < |now| && now[owner'[h]].generation != 0 && now[owner'[h]].resultData == Some(h)
    {
      if e.resultData != Some(h) {
        assert h in heap;
      }
    }
  }

  lemma StoreKeepsTransparent(es: seq<Entry>, heap: map<nat, seq<Candidate>>, owner: map<nat, nat>, index: nat, e: Entry, result: seq<Candidate>,
                              heap': map<nat, seq<Candidate>>, texts: Texts)
    requires index < |es| && Owned(es, heap, owner) && Transparent(es, heap, texts) && texts.Current(e.key, result)
    requires e.resultData.Some? ==> e.resultData.value !in heap
    requires e.resultData.None? ==> result == []
    requires Stored(heap, heap', es[index], e, result)
    ensures Transparent(es[index := e], heap', texts)
  {
    hide Texts.Current;
    var now := es[index := e];
    forall i: nat | i < |now| && now[i].generation != 0
      ensures texts.Current(now[i].key, Contents(now[i], heap'))
    {
      if i != index {
        assert now[i] == es[i];
        assert texts.Current(es[i].key, Contents(es[i], heap));
      }
    }
  }

  lemma LiveBufferIsThere(es: seq<Entry>, heap: map<nat, seq<Candidate>>, owner: map<nat, nat>, i: nat)
    requires Owned(es, heap, owner) && i < |es|
    ensures es[i].generation != 0 && es[i].resultData.Some? ==> es[i].resultData.value in heap
  {
  }

  /** The n-th live slot is listed only there, and its buffer is the one it owns. */
  lemma SlotOwnsItsBuffer(es: seq<Entry>, live: seq<nat>, heap: map<nat, seq<Candidate>>, owner: map<nat, nat>, n: nat)
    requires Listed(es, live) && Owned(es, heap, owner) && n < |live|
    ensures live[n] < |es| && live[n] !in live[..n]
    ensures es[live[n]].resultData.Some? ==> es[live[n]].resultData.value in heap
    ensures forall h: nat :: h in heap ==> (owner[h] == live[n] <==> es[live[n]].resultData == Some(h))
  {
    assert live[n] in live && es[live[n]].generation != 0;
  }

  class LiteralFuzzyCandidatesCache {
    const entries: array<Entry>
    const slotOf: Key -> nat
    const texts: Texts
    var liveSlots: seq<nat>
    var heap: map<nat, seq<Candidate>>
    var nextAddress: nat
    /** The slot each buffer on the heap belongs to. */
    ghost var owner: map<nat, nat>

    ghost predicate Valid()
      reads this, entries
    {
      && entries.Length == SLOT_COUNT
      && (forall k: Key :: slotOf(k) < SLOT_COUNT)
      && (forall h: nat :: h in heap ==> h < nextAddress)
      && Listed(entries[..], liveSlots)
      && Owned(entries[..], heap, owner)
      && Transparent(entries[..], heap, texts)
    }

    constructor (slotOf: Key -> nat, texts: Texts)
      requires forall k: Key :: slotOf(k) < SLOT_COUNT
      ensures Valid() && heap == map[] && this.slotOf == slotOf && this.texts == texts
      ensures liveSlots == [] && forall k: nat :: k < entries.Length ==> entries[k].generation == 0
      ensures fresh(entries)
    {
      // raw storage: every field is arbitrary until its generation is zeroed
      var raw := new Entry[SLOT_COUNT];
      for i := 0 to SLOT_COUNT
        invariant forall k: nat :: k < i ==> raw[k].generation == 0
        modifies raw
      {
        raw[i] := raw[i].(generation := 0);
      }
      entries := raw;
      this.slotOf, this.texts := slotOf, texts;
      liveSlots, heap, nextAddress, owner := [], map[], 0, map[];
    }

    /** Gives a buffer back; only a buffer that is still there can be. */
    method Delete(data: Option<nat>)
      requires data.Some? ==> data.value in heap
      modifies this`heap
      ensures heap == if data.None? then old(heap) else old(heap) - {data.value}
    {
      if data.Some? {
        heap := heap - {data.value};
      }
    }

    method Allocate(result: seq<Candidate>) returns (data: nat)
      requires forall h: nat :: h in heap ==> h < nextAddress
      modifies this`heap, this`nextAddress
      ensures data == old(nextAddress) && nextAddress == data + 1 && heap == old(heap)[data := result]
    {
      data := nextAddress;
      heap := heap[data := result];
      nextAddress := nextAddress + 1;
    }

    /** Gives the slot's old buffer back and puts a result that is not empty into a new one. */
    method SwapBuffer(index: nat, was: Entry, key: Key, result: seq<Candidate>) returns (e: Entry)
      requires was.generation != 0 && was.resultData.Some? ==> was.resultData.value in heap
      requires forall h: nat :: h in heap ==> h < nextAddress
      modifies this`heap, this`nextAddress, this`owner
      ensures e.key == key && e.generation == 1 && (e.resultData.None? <==> result == [])
      ensures e.resultData.Some? ==> e.resultData.value !in old(heap)
      ensures Stored(old(heap), heap, was, e, result) && Stored(old(owner), owner, was, e, index)
      ensures forall h: nat :: h in heap ==> h < nextAddress
    {
      if was.generation != 0 {
        Delete(was.resultData);
      }
      owner := Freed(owner, was);
      e := Entry(key, None, 1);
      if result != [] {
        var data := Allocate(result);
        e := Entry(key, Some(data), 1);
        owner := owner[data := index];
      }
    }

    method StoreIntoSlot(index: nat, key: Key, result: seq<Candidate>)
      requires Valid() && index < SLOT_COUNT && texts.Current(key, result)
      modifies this, entries
      ensures Valid()
      ensures entries[index].generation != 0 && entries[index].key == key
    {
      hide Listed, Transparent, Owned, Stored, Texts.Current;
      ghost var es, live, heap0, owner0 := entries[..], liveSlots, heap, owner;
      LiveBufferIsThere(es, heap, owner, index);
      if entries[index].generation == 0 {
        liveSlots := liveSlots + [index];
      }
      var e := SwapBuffer(index, entries[index], key, result);
      entries[index] := e;
      StoreKeepsListed(es, live, index, e);
      StoreKeepsOwned(es, heap0, owner0, index, e, result, heap, owner);
      StoreKeepsTransparent(es, heap0, owner0, index, e, result, heap, texts);
      assert entries[..] == es[index := e];
    }

    /** A lookup, cached or not, answers what a fresh computation may give. */
    method Find(key: Key) returns (result: seq<Candidate>)
      requires Valid() && FitsWord(Codepoints(texts.Literal(key), 0), Codepoints(texts.Input(key), 0))
      modifies this, entries
      ensures Valid()
      ensures if key.literalSize == 0 || key.inputSize == 0 then result == [] else texts.Current(key, result)
    {
      if key.literalSize == 0 || key.inputSize == 0 {
        return [];
      }
      var index := slotOf(key);
      if entries[index].generation == 0 || entries[index].key != key {
        var pruned := ComputeAfresh(texts.Literal(key), texts.Input(key), key.caseSensitive, texts.identifier);
        StoreIntoSlot(index, key, pruned);
      }
      hide Texts.Current;
      var data := entries[index].resultData;
      assert entries[..][index] == entries[index];
      result := if data.None? then [] else heap[data.value];
    }

    /** The destructor: every buffer is freed, none twice. */
    method Destroy()
      requires Valid()
      modifies this`heap
      ensures heap == map[]
    {
      hide Transparent;
      ghost var es := entries[..];
      for n := 0 to |liveSlots|
        invariant heap.Keys <= old(heap).Keys
        invariant forall h: nat :: h in old(heap) ==> (h in heap <==> owner[h] !in liveSlots[..n])
      {
        var index := liveSlots[n];
        assert liveSlots[..n + 1] == liveSlots[..n] + [index];
        SlotOwnsItsBuffer(es, liveSlots, old(heap), owner, n);
        Delete(entries[index].resultData);
      }
      assert liveSlots[..|liveSlots|] == liveSlots;
      forall h: nat | h in old(heap)
        ensures owner[h] in liveSlots
      {
        assert es[owner[h]].generation != 0;
      }
    }
  }
}
