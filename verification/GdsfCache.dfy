/** The mutable objects of gdsf.py and memory_cache.py, proved equal to the
    operations of GdsfModel. */
module GdsfCache {
  import opened Basics
  import opened Heapq
  import M = GdsfModel

  ghost function Elems(h: seq<Entry>): set<Entry> {
    set e | e in h
  }

  ghost predicate NoDup(h: seq<Entry>) {
    forall e :: multiset(h)[e] <= 1
  }

  lemma ElemsAfterPush(h0: seq<Entry>, e: Entry, h: seq<Entry>)
    requires NoDup(h0) && e !in h0 && multiset(h) == multiset(h0) + multiset{e}
    ensures NoDup(h) && Elems(h) == Elems(h0) + {e}
  {
    forall x ensures x in h <==> x in h0 || x == e {
      assert x in h <==> x in multiset(h);
      assert x in h0 <==> x in multiset(h0);
    }
    forall x ensures multiset(h)[x] <= 1 {
      assert e !in multiset(h0);
    }
  }

  lemma ElemsAfterPop(h0: seq<Entry>, e: Entry, h: seq<Entry>)
    requires NoDup(h0) && multiset(h0) == multiset(h) + multiset{e}
    ensures e in h0 && e !in h && NoDup(h) && Elems(h) == Elems(h0) - {e}
  {
    assert e in multiset(h0);
    assert multiset(h0)[e] == multiset(h)[e] + 1;
    forall x ensures x in h <==> x in h0 && x != e {
      assert x in h <==> x in multiset(h);
      assert x in h0 <==> x in multiset(h0);
      assert multiset(h0)[x] == multiset(h)[x] + (if x == e then 1 else 0);
    }
    forall x ensures multiset(h)[x] <= 1 {
      assert multiset(h0)[x] <= 1;
    }
  }

  /** Part of the heap already popped by an eviction in progress: stale entries,
      all below what is left. */
  ghost predicate Dropped(s: M.Cache, rest: set<Entry>, skipped: set<Entry>) {
    && skipped !! rest && s.heap == skipped + rest
    && (forall d :: d in skipped ==> !M.IsLive(s.prio, d))
    && (forall d, e :: d in skipped && e in rest ==> Leq(d, e))
  }

  lemma DropStale(s: M.Cache, rest: set<Entry>, skipped: set<Entry>, e: Entry)
    requires Dropped(s, rest, skipped) && e in rest && !M.IsLive(s.prio, e)
    requires forall f :: f in rest ==> Leq(e, f)
    ensures Dropped(s, rest - {e}, skipped + {e})
    ensures |skipped + {e}| == |skipped| + 1
  {
  }

  lemma FirstLiveWins(cfg: M.Config, s: M.Cache, rest: set<Entry>, skipped: set<Entry>, e: Entry)
    requires M.Valid(cfg, s) && Dropped(s, rest, skipped) && e in rest && M.IsLive(s.prio, e)
    requires forall f :: f in rest ==> Leq(e, f)
    ensures s.data != map[] && e == M.Victim(cfg, s)
    ensures M.Above(s.heap, e) == rest - {e} && M.Skipped(s.heap, e) == |skipped|
  {
    assert e in M.Live(s);
    M.LiveWhileResident(cfg, s);
    forall f | f in M.Live(s)
      ensures Leq(e, f)
    {
      assert f in rest;
    }
    M.LeastIsUnique(s.heap, s.clock, M.Live(s), e);
    assert M.Above(s.heap, e) == rest - {e};
    assert (set f | f in s.heap && Leq(f, e) && f != e) == skipped;
  }

  lemma AllStaleMeansEmpty(cfg: M.Config, s: M.Cache, skipped: set<Entry>)
    requires M.Valid(cfg, s) && Dropped(s, {}, skipped)
    ensures s.data == map[] && skipped == s.heap
  {
    M.LiveWhileResident(cfg, s);
    assert forall e :: e in M.Live(s) ==> e in skipped;
    assert M.Live(s) == {};
  }

  /** gptcache/manager/eviction/gdsf.py, together with the parts of its base class
      `cachetools.Cache` that it relies on. */
  class GDSFCache {
    const cfg: M.Config
    var data: map<Key, M.Value>
    var currsize: int
    var heap: seq<Entry>
    var counter: nat
    var freq: map<Key, nat>
    var prio: map<Key, real>
    var inflation: real
    /** Every argument the `on_evict` callback has been given. */
    var reported: seq<seq<Key>>
    ghost var past: M.History

    ghost function Abs(): M.Cache
      reads this
    {
      M.Cache(data, currsize, freq, prio, Elems(heap), counter, inflation, past)
    }

    ghost predicate HeapOk()
      reads this
    {
      IsHeap(heap) && NoDup(heap)
    }

    ghost predicate Valid()
      reads this
    {
      HeapOk() && M.Valid(cfg, Abs()) && reported == past.calls
    }

    constructor (cfg: M.Config)
      ensures Valid() && this.cfg == cfg && Abs() == M.Empty()
    {
      this.cfg := cfg;
      data, currsize, heap, counter := map[], 0, [], 0;
      freq, prio, inflation, reported := map[], map[], 0.0, [];
      past := M.Empty().past;
      new;
      assert Elems(heap) == {};
    }

    /** `_push` */
    method PushEntry(k: Key, v: M.Value)
      requires k in freq && HeapOk() && M.Stamped(Elems(heap), counter)
      modifies this`prio, this`heap, this`counter
      ensures HeapOk() && Abs() == M.Push(cfg, old(Abs()), k, v)
    {
      var p := M.Priority(cfg, inflation, freq[k], v);
      prio := prio[k := p];
      var e := Entry(p, counter, k);
      assert e !in Elems(heap);
      var h := HeapPush(heap, e);
      ElemsAfterPush(heap, e, h);
      heap := h;
      counter := counter + 1;
    }

    /** `__delitem__`; false stands for KeyError. */
    method DelItem(k: Key) returns (found: bool)
      requires Valid()
      modifies this
      ensures Valid() && Abs() == M.DelItem(cfg, old(Abs()), k)
      ensures found == (k in old(data))
    {
      found := k in data;
      if found {
        RemoveKey(k);
        past := past.(deleted := past.deleted + multiset{k});
        assert Abs() == M.DelItem(cfg, old(Abs()), k);
      }
    }

    /** The body of `__delitem__` on a resident key. */
    method RemoveKey(k: Key)
      requires k in data
      modifies this`data, this`freq, this`prio, this`currsize
      ensures Abs() == M.Forget(cfg, old(Abs()), k)
    {
      currsize := currsize - cfg.getsizeof(data[k]);
      data := data - {k};
      freq := freq - {k};
      prio := prio - {k};
    }

    /** The class's own `popitem`; None stands for KeyError. */
    method PopOne() returns (item: Option<(Key, M.Value)>)
      requires Valid()
      modifies this
      ensures Valid() && Abs() == M.Pop(cfg, old(Abs()))
      ensures old(data) == map[] ==> item == None
      ensures old(data) != map[] ==>
        var k := M.Victim(cfg, old(Abs())).key; item == Some((k, old(data)[k]))
    {
      hide M.Valid, Dropped, Elems, IsHeap, NoDup, M.Evict, M.Victim, M.Above, M.Skipped;
      ghost var s := Abs();
      ghost var skipped: set<Entry> := {};
      StartDropping(s);
      while heap != []
        invariant HeapOk() && Dropped(s, Elems(heap), skipped)
        invariant Abs() == s.(heap := Elems(heap), past := s.past.(discards := s.past.discards + |skipped|))
        invariant reported == past.calls
        decreases |heap|
      {
        var e, rest := HeapPop(heap);
        PopFacts(heap, e, rest);
        ghost var left := Elems(heap);
        heap := rest;
        if e.key in prio && prio[e.key] == e.prio {
          FirstLiveWins(cfg, s, left, skipped, e);
          item := Some((e.key, data[e.key]));
          TakeOut(e, s);
          return;
        }
        DropStale(s, left, skipped, e);
        skipped := skipped + {e};
        past := past.(discards := past.discards + 1);
      }
      EmptyElems();
      AllStaleMeansEmpty(cfg, s, skipped);
      item := None;
      assert Abs() == M.Drain(cfg, s);
    }

    /** The last three lines of a successful `popitem`; `s` is the cache it started from. */
    method TakeOut(e: Entry, ghost s: M.Cache)
      requires M.Valid(cfg, s) && s.data != map[] && e == M.Victim(cfg, s)
      requires Abs() == s.(heap := M.Above(s.heap, e),
                           past := s.past.(discards := s.past.discards + M.Skipped(s.heap, e)))
      modifies this`data, this`freq, this`prio, this`currsize, this`inflation, this`past
      ensures Abs() == M.Evict(cfg, s) && past.calls == s.past.calls
    {
      hide M.Valid, M.Victim, M.Above, M.Skipped, M.Evict, M.Forget, Elems;
      inflation := if cfg.variant == M.NoAging then 0.0 else e.prio;
      ghost var u := Abs();
      RemoveKey(e.key);
      ghost var r := Abs();
      past := past.(evicted := past.evicted + [e.key]);
      TakenIsEvicted(cfg, s, e, u, r);
    }

    /** The wrapper of memory_cache.py:9-18 around `PopOne`. */
    method PopBatch(cleanSize: nat)
      requires Valid()
      modifies this
      ensures Valid() && Abs() == M.PopBatch(cfg, old(Abs()), cleanSize)
    {
      ghost var s := Abs();
      var keys: seq<Key> := [];
      var i := 0;
      hide M.Evict, M.Valid, M.Victim, Elems, IsHeap, NoDup;
      while i < cleanSize
        invariant i <= cleanSize && Valid()
        invariant M.PopMany(cfg, Abs(), cleanSize - i) == M.PopMany(cfg, s, cleanSize)
        invariant |s.data| == |data| + i
        invariant cleanSize <= |s.data| ==>
          keys + M.Victims(cfg, Abs(), cleanSize - i) == M.Victims(cfg, s, cleanSize)
      {
        ghost var before := Abs();
        var item := PopOne();
        if item.None? {
          keys := [];
          assert before.data == map[] && Abs() == M.Drain(cfg, before);
          assert M.PopMany(cfg, before, cleanSize - i) == Abs();
          assert |s.data| == i;
          break;
        }
        keys := keys + [item.value.0];
        i := i + 1;
      }
      ghost var popped := Abs();
      assert popped == M.PopMany(cfg, s, cleanSize);
      assert keys == if cleanSize <= |s.data| then M.Victims(cfg, s, cleanSize) else [];
      reported := reported + [keys];
      past := past.(calls := past.calls + [keys]);
      assert Abs() == popped.(past := popped.past.(calls := popped.past.calls + [keys]));
      assert Abs() == M.PopBatch(cfg, s, cleanSize);
    }

    /** `self.popitem()` as the overflow loop calls it. */
    method Popitem()
      requires Valid()
      modifies this
      ensures Valid() && Abs() == M.Popitem(cfg, old(Abs()))
    {
      match cfg.popMode
      case Plain =>
        var _ := PopOne();
      case Batched(n) =>
        PopBatch(n);
    }

    /** `__setitem__`, base class included; false stands for ValueError. */
    method SetItem(k: Key, v: M.Value) returns (ok: bool)
      requires Valid() && M.Returns(cfg, Abs(), k, v)
      modifies this
      ensures Valid() && Abs() == M.SetItem(cfg, old(Abs()), k, v)
      ensures ok == !M.TooLarge(cfg, v)
    {
      hide M.Valid, Elems, IsHeap, NoDup, M.Room, M.MakeRoom, M.Push, M.Store, M.Stamped;
      var size := cfg.getsizeof(v);
      if size > cfg.maxsize {
        return false;
      }
      ghost var s := Abs();
      if k !in data || cfg.getsizeof(data[k]) < size {
        MakeRoom(size);
      }
      ghost var room := Abs();
      assert room == M.Room(cfg, s, k, v) by {
        RoomUnfold(s, k, v, room);
      }
      M.StorePushValid(cfg, room, k, v);
      StampedElems();
      BaseStore(k, v);
      PushEntry(k, v);
      ok := true;
    }

    /** The base class stores the value; a key without a frequency gets 1. */
    method BaseStore(k: Key, v: M.Value)
      modifies this`data, this`currsize, this`freq, this`past
      ensures Abs() == M.Store(cfg, old(Abs()), k, v) && k in freq && past.calls == old(past.calls)
    {
      var diffsize := if k in data then cfg.getsizeof(v) - cfg.getsizeof(data[k]) else cfg.getsizeof(v);
      past := if k in data then past.(overwrites := past.overwrites + 1)
              else past.(inserted := past.inserted + multiset{k});
      data := data[k := v];
      currsize := currsize + diffsize;
      if k !in freq {
        freq := freq[k := 1];
      }
    }

    method MakeRoom(size: nat)
      requires Valid() && size <= cfg.maxsize && (M.Progressive(cfg) || currsize + size <= cfg.maxsize)
      modifies this
      ensures Valid() && Abs() == M.MakeRoom(cfg, old(Abs()), size)
    {
      while currsize + size > cfg.maxsize
        invariant Valid()
        invariant M.Progressive(cfg) || currsize + size <= cfg.maxsize
        invariant M.MakeRoom(cfg, Abs(), size) == M.MakeRoom(cfg, old(Abs()), size)
        decreases |data|
      {
        Popitem();
      }
    }

    /** `__getitem__`; None stands for KeyError. */
    method GetItem(k: Key) returns (value: Option<M.Value>)
      requires Valid()
      modifies this
      ensures Valid() && Abs() == M.GetItem(cfg, old(Abs()), k)
      ensures value == if k in old(data) then Some(old(data)[k]) else None
    {
      hide M.Valid, Elems, IsHeap, NoDup, M.Push, M.Touch, M.Stamped;
      if k !in data {
        return None;
      }
      M.ResidentHasFreq(cfg, Abs(), k);
      StampedElems();
      value := Some(data[k]);
      CountHit(k);
      PushEntry(k, data[k]);
      assert M.Valid(cfg, M.GetItem(cfg, old(Abs()), k));
    }

    method CountHit(k: Key)
      requires k in freq
      modifies this`freq, this`past
      ensures Abs() == M.Touch(old(Abs()), k) && k in freq && past.calls == old(past.calls)
    {
      freq := freq[k := freq[k] + 1];
      past := past.(hits := past.hits + 1);
    }

    static lemma TakenIsEvicted(cfg: M.Config, s: M.Cache, e: Entry, u: M.Cache, r: M.Cache)
      requires M.Valid(cfg, s) && s.data != map[] && e == M.Victim(cfg, s)
      requires u == s.(heap := M.Above(s.heap, e), inflation := if cfg.variant == M.NoAging then 0.0 else e.prio,
                       past := s.past.(discards := s.past.discards + M.Skipped(s.heap, e)))
      requires r == M.Forget(cfg, u, e.key)
      ensures r.past == u.past && u.past.evicted == s.past.evicted && u.past.calls == s.past.calls
      ensures M.Evict(cfg, s) == r.(past := u.past.(evicted := s.past.evicted + [e.key]))
    {
      hide M.Valid, M.Victim, M.Above, M.Skipped;
    }

    lemma StartDropping(s: M.Cache)
      requires s == Abs()
      ensures Dropped(s, Elems(heap), {})
    {
    }

    lemma RoomUnfold(s: M.Cache, k: Key, v: M.Value, room: M.Cache)
      requires M.Valid(cfg, s) && M.Returns(cfg, s, k, v) && !M.TooLarge(cfg, v)
      requires room == if k !in s.data || cfg.getsizeof(s.data[k]) < cfg.getsizeof(v)
                       then M.MakeRoom(cfg, s, cfg.getsizeof(v)) else s
      ensures room == M.Room(cfg, s, k, v)
    {
    }

    lemma StampedElems()
      requires M.Valid(cfg, Abs())
      ensures M.Stamped(Elems(heap), counter)
    {
    }

    lemma EmptyElems()
      requires heap == []
      ensures Elems(heap) == {}
    {
    }

    static lemma PopFacts(h0: seq<Entry>, e: Entry, h: seq<Entry>)
      requires NoDup(h0) && multiset(h0) == multiset(h) + multiset{e}
      requires forall f :: f in h0 ==> Leq(e, f)
      ensures e in Elems(h0) && NoDup(h) && Elems(h) == Elems(h0) - {e}
      ensures forall f :: f in Elems(h0) ==> Leq(e, f)
    {
      ElemsAfterPop(h0, e, h);
    }
  }
}
