/** What one eviction, one batch and one overflow do. */
module Eviction {
  import opened Basics
  import opened Heapq
  import opened GdsfModel

  /** `popitem` takes a resident of least current priority, whatever stale or
      duplicate entries the heap holds. */
  lemma VictimHasLeastPriority(cfg: Config, s: Cache, k: Key)
    requires Valid(cfg, s) && k in s.data
    ensures s.prio[Victim(cfg, s).key] <= s.prio[k]
  {
    assert Represented(s.heap, s.prio, k);
    var e :| e in s.heap && e.key == k && IsLive(s.prio, e);
    assert e in Live(s);
  }

  /** Among residents of equal priority the one pushed first goes first: no live
      entry of the same priority has a smaller tick. */
  lemma TiesGoToTheOldestPush(cfg: Config, s: Cache, e: Entry)
    requires Valid(cfg, s) && s.data != map[]
    requires e in s.heap && IsLive(s.prio, e) && e.prio == Victim(cfg, s).prio
    ensures Victim(cfg, s).tick <= e.tick
  {
    assert e in Live(s);
  }

  predicate Ascending(prio: map<Key, real>, ks: seq<Key>)
    requires forall k :: k in ks ==> k in prio
  {
    forall i, j :: 0 <= i <= j < |ks| ==> prio[ks[i]] <= prio[ks[j]]
  }

  /** `ks` are the `|ks|` keys of least priority, in order. */
  ghost predicate Lowest(prio: map<Key, real>, ks: seq<Key>) {
    && (forall k :: k in ks ==> k in prio)
    && Distinct(ks) && Ascending(prio, ks)
    && (forall i, k :: 0 <= i < |ks| && k in prio && k !in ks ==> prio[ks[i]] <= prio[k])
  }

  lemma ConsLowest(prio: map<Key, real>, k: Key, ks: seq<Key>)
    requires k in prio && (forall j :: j in prio ==> prio[k] <= prio[j])
    requires Lowest(prio - {k}, ks)
    ensures Lowest(prio, [k] + ks)
  {
    var all := [k] + ks;
    assert forall j :: j in all <==> j == k || j in ks;
    assert k !in ks;
    assert forall i :: 0 <= i < |all| ==> all[i] in all;
    assert forall j :: j in all ==> j in prio;
    forall i, j | 0 <= i < j < |all|
      ensures all[i] != all[j] && prio[all[i]] <= prio[all[j]]
    {
      assert all[j] == ks[j - 1];
      if i > 0 {
        assert all[i] == ks[i - 1];
      }
    }
  }

  /** `t` is `s` after the keys `ks` have been evicted, in that order. */
  predicate Took(s: Cache, t: Cache, ks: seq<Key>) {
    && t.data == s.data - Members(ks) && t.freq == s.freq - Members(ks) && t.prio == s.prio - Members(ks)
    && t.past.evicted == s.past.evicted + ks
    && t.past.calls == s.past.calls && t.past.inserted == s.past.inserted && t.past.deleted == s.past.deleted
  }

  /** The first `n` pops of a cache with at least `n` residents take exactly the `n`
      lowest-priority ones, lowest first, and leave the aging value at the last one's
      priority. */
  lemma {:induction false} PopsTakeTheLowest(cfg: Config, s: Cache, n: nat)
    requires Valid(cfg, s) && n <= |s.data|
    ensures var ks, t := Victims(cfg, s, n), PopMany(cfg, s, n);
      && Lowest(s.prio, ks) && Took(s, t, ks)
      && t.inflation == (if n == 0 then s.inflation
                         else if cfg.variant == NoAging then 0.0 else s.prio[ks[n - 1]])
    decreases n
  {
    hide Valid, Victim, Evict, Least, Drain, Took;
    if n == 0 {
      EmptyLowest(s.prio);
      TookNothing(s);
    } else {
      EvictTakesVictim(cfg, s);
      VictimResides(cfg, s);
      var v, u := Victim(cfg, s).key, Evict(cfg, s);
      PopsTakeTheLowest(cfg, u, n - 1);
      var rest := Victims(cfg, u, n - 1);
      assert Victims(cfg, s, n) == [v] + rest;
      ConsLowest(s.prio, v, rest);
      TookFirst(s, u, PopMany(cfg, u, n - 1), v, rest);
      LastOf(s.prio, v, rest);
    }
  }

  lemma TookNothing(s: Cache)
    ensures Took(s, s, [])
  {
    assert s.data - Members([]) == s.data && s.freq - Members([]) == s.freq && s.prio - Members([]) == s.prio;
  }

  lemma TookFirst(s: Cache, u: Cache, t: Cache, v: Key, rest: seq<Key>)
    requires u.data == s.data - {v} && u.freq == s.freq - {v} && u.prio == s.prio - {v}
    requires u.past.evicted == s.past.evicted + [v]
    requires u.past.calls == s.past.calls && u.past.inserted == s.past.inserted && u.past.deleted == s.past.deleted
    requires Took(u, t, rest)
    ensures Took(s, t, [v] + rest)
  {
    assert Members([v] + rest) == {v} + Members(rest);
    MinusTwice(s.data, v, Members(rest));
    MinusTwice(s.freq, v, Members(rest));
    MinusTwice(s.prio, v, Members(rest));
  }

  lemma EmptyLowest(prio: map<Key, real>)
    ensures Lowest(prio, [])
  {
  }

  lemma VictimResides(cfg: Config, s: Cache)
    requires Valid(cfg, s) && s.data != map[]
    ensures Victim(cfg, s).key in s.data && Victim(cfg, s).key in s.prio
    ensures forall j :: j in s.prio ==> s.prio[Victim(cfg, s).key] <= s.prio[j]
  {
    hide Victim;
    forall j | j in s.prio
      ensures s.prio[Victim(cfg, s).key] <= s.prio[j]
    {
      VictimHasLeastPriority(cfg, s, j);
    }
  }

  lemma LastOf(prio: map<Key, real>, v: Key, rest: seq<Key>)
    requires Lowest(prio - {v}, rest)
    ensures rest != [] ==> ([v] + rest)[|rest|] == rest[|rest| - 1]
    ensures rest != [] ==> (prio - {v})[rest[|rest| - 1]] == prio[rest[|rest| - 1]]
  {
  }

  lemma MinusTwice<V>(m: map<Key, V>, k: Key, ks: set<Key>)
    ensures m - {k} - ks == m - ({k} + ks)
  {
  }

  lemma EvictTakesVictim(cfg: Config, s: Cache)
    requires Valid(cfg, s) && s.data != map[]
    ensures var v, t := Victim(cfg, s).key, Evict(cfg, s);
      && t.data == s.data - {v} && t.freq == s.freq - {v} && t.prio == s.prio - {v}
      && t.past.evicted == s.past.evicted + [v] && t.past.calls == s.past.calls
      && t.past.inserted == s.past.inserted && t.past.deleted == s.past.deleted
      && t.inflation == if cfg.variant == NoAging then 0.0 else s.prio[v]
  {
    hide Valid, Least, Live, Above, Skipped;
  }

  /** What the wrapper reports is what it evicted, unless it runs out of residents
      half-way: then every resident is gone and `on_evict` gets an empty list. */
  lemma BatchReports(cfg: Config, s: Cache, n: nat)
    requires Valid(cfg, s)
    ensures var t := PopBatch(cfg, s, n);
      && t.past.calls == s.past.calls + [if n <= |s.data| then Victims(cfg, s, n) else []]
      && (n <= |s.data| ==> t.past.evicted == s.past.evicted + Victims(cfg, s, n)
                            && t.data == s.data - Members(Victims(cfg, s, n)))
      && (n > |s.data| ==> t.data == map[] && |t.past.evicted| == |s.past.evicted| + |s.data|)
  {
    hide Valid, PopMany, Victims, Lowest;
    PopManySize(cfg, s, n);
    PopManyEvicts(cfg, s, n);
    PopManyReportsNothing(cfg, s, n);
    if n <= |s.data| {
      PopsTakeTheLowest(cfg, s, n);
    }
  }

  lemma {:induction false} PopManyEvicts(cfg: Config, s: Cache, n: nat)
    requires Valid(cfg, s)
    ensures |PopMany(cfg, s, n).past.evicted| == |s.past.evicted| + (if n <= |s.data| then n else |s.data|)
    decreases n
  {
    hide Valid, Evict, Victim;
    if n != 0 && s.data != map[] {
      EvictTakesVictim(cfg, s);
      var u := Evict(cfg, s);
      assert PopMany(cfg, s, n) == PopMany(cfg, u, n - 1);
      PopManyEvicts(cfg, u, n - 1);
    }
  }

  lemma {:induction false} PopManyReportsNothing(cfg: Config, s: Cache, n: nat)
    requires Valid(cfg, s)
    ensures PopMany(cfg, s, n).past.calls == s.past.calls
    decreases n
  {
    hide Valid, Evict, Victim;
    if n != 0 && s.data != map[] {
      EvictTakesVictim(cfg, s);
      var u := Evict(cfg, s);
      assert PopMany(cfg, s, n) == PopMany(cfg, u, n - 1);
      PopManyReportsNothing(cfg, u, n - 1);
    }
  }

  /** Between `s` and `t` the callback was called once, with exactly the keys evicted. */
  predicate Told(s: Cache, t: Cache) {
    && |t.past.calls| == |s.past.calls| + 1
    && t.past.evicted == s.past.evicted + t.past.calls[|s.past.calls|]
  }

  /** No key is lost by a batch exactly when the cache holds a full batch (or nothing). */
  lemma BatchLosesNothingIff(cfg: Config, s: Cache, n: nat)
    requires Valid(cfg, s)
    ensures Told(s, PopBatch(cfg, s, n)) <==> n <= |s.data| || s.data == map[]
  {
    hide Valid, PopBatch, Victims;
    BatchReports(cfg, s, n);
    PopManyEvicts(cfg, s, n);
    var t := PopBatch(cfg, s, n);
    if n > |s.data| {
      assert t.past.calls[|s.past.calls|] == [];
      assert s.past.evicted + [] == s.past.evicted;
      if s.data == map[] {
        NothingToEvict(cfg, s, n);
      }
    }
  }

  lemma NothingToEvict(cfg: Config, s: Cache, n: nat)
    requires Valid(cfg, s) && s.data == map[]
    ensures PopBatch(cfg, s, n).past.evicted == s.past.evicted
  {
  }

  // ---------- overflow ----------

  ghost predicate UnitSizes(cfg: Config) {
    forall v :: cfg.getsizeof(v) == 1
  }

  lemma {:induction false} UnitTotal(size: Value -> nat, data: map<Key, Value>)
    requires forall v :: size(v) == 1
    ensures Total(size, data) == |data|
    decreases |data|
  {
    if data != map[] {
      var k :| k in data && Total(size, data) == size(data[k]) + Total(size, data - {k});
      assert (data - {k}).Keys == data.Keys - {k};
      UnitTotal(size, data - {k});
    }
  }

  lemma UnitCount(cfg: Config, s: Cache)
    requires Valid(cfg, s) && UnitSizes(cfg)
    ensures s.currsize == |s.data| <= cfg.maxsize
  {
    UnitTotal(cfg.getsizeof, s.data);
  }

  predicate Full(cfg: Config, s: Cache) {
    |s.data| == cfg.maxsize
  }

  /** An overflow is a single batch, whatever the clean size. */
  lemma OverflowIsOneBatch(cfg: Config, s: Cache)
    requires Valid(cfg, s) && UnitSizes(cfg) && Full(cfg, s) && cfg.maxsize >= 1
    requires cfg.popMode.Batched? && cfg.popMode.cleanSize >= 1
    ensures MakeRoom(cfg, s, 1) == PopBatch(cfg, s, cfg.popMode.cleanSize)
  {
    UnitCount(cfg, s);
    UnitCount(cfg, PopBatch(cfg, s, cfg.popMode.cleanSize));
    hide Valid, PopBatch;
    var t := PopBatch(cfg, s, cfg.popMode.cleanSize);
    assert t == Popitem(cfg, s);
    assert MakeRoom(cfg, t, 1) == t;
  }

  /** From `s` to `t` the residents `ks` of least priority, in ascending order, have been
      evicted and reported, and the new key `k` has come in above the last one's priority. */
  ghost predicate Replaced(cfg: Config, s: Cache, t: Cache, ks: seq<Key>, k: Key, v: Value) {
    && Lowest(s.prio, ks) && k !in ks && |ks| > 0
    && t.past.calls == s.past.calls + [ks] && t.past.evicted == s.past.evicted + ks
    && t.data == (s.data - Members(ks))[k := v]
    && var top := s.prio[ks[|ks| - 1]];
    && (forall j :: j in t.data && j != k ==>
          j in s.prio && j in t.prio && t.prio[j] == s.prio[j] && top <= t.prio[j])
    && t.inflation == (if cfg.variant == NoAging then 0.0 else top)
    && k in t.freq && t.freq[k] == 1 && k in t.prio && t.prio[k] == t.inflation + Weight(cfg, 1, v)
  }

  /** Inserting a new key into a full cache with a clean size between 1 and the
      maximum: the callback gets exactly the `cleanSize` residents of least priority
      in ascending order, they are gone, the new key is in and was never a candidate,
      and its priority builds on the aging value the last victim left. */
  lemma OverflowEvictsTheLowest(cfg: Config, s: Cache, k: Key, v: Value)
    requires Valid(cfg, s) && UnitSizes(cfg) && Full(cfg, s) && k !in s.data
    requires cfg.popMode.Batched? && 1 <= cfg.popMode.cleanSize <= cfg.maxsize
    ensures |Victims(cfg, s, cfg.popMode.cleanSize)| == cfg.popMode.cleanSize
    ensures Replaced(cfg, s, SetItem(cfg, s, k, v), Victims(cfg, s, cfg.popMode.cleanSize), k, v)
  {
    hide Valid, PopBatch, PopMany, Victims, MakeRoom, Lowest, Replaced, Push, Store;
    var n := cfg.popMode.cleanSize;
    OverflowIsOneBatch(cfg, s);
    PopsTakeTheLowest(cfg, s, n);
    BatchReports(cfg, s, n);
    BatchKeeps(cfg, s, n);
    var room := PopBatch(cfg, s, n);
    UnitCount(cfg, s);
    assert Overflows(cfg, s, k, v);
    assert room == Room(cfg, s, k, v);
    KeysAgree(cfg, s);
    ReplacedFrom(cfg, s, room, Victims(cfg, s, n), k, v);
  }

  lemma ReplacedFrom(cfg: Config, s: Cache, room: Cache, ks: seq<Key>, k: Key, v: Value)
    requires s.prio.Keys == s.freq.Keys == s.data.Keys && k !in s.data && Lowest(s.prio, ks) && |ks| > 0
    requires room.data == s.data - Members(ks) && room.freq == s.freq - Members(ks) && room.prio == s.prio - Members(ks)
    requires room.past.calls == s.past.calls + [ks] && room.past.evicted == s.past.evicted + ks
    requires room.inflation == if cfg.variant == NoAging then 0.0 else s.prio[ks[|ks| - 1]]
    ensures Replaced(cfg, s, Push(cfg, Store(cfg, room, k, v), k, v), ks, k, v)
  {
    hide Weight;
  }

  lemma BatchKeeps(cfg: Config, s: Cache, n: nat)
    requires Valid(cfg, s) && n <= |s.data|
    ensures PopBatch(cfg, s, n).prio == s.prio - Members(Victims(cfg, s, n))
    ensures PopBatch(cfg, s, n).freq == s.freq - Members(Victims(cfg, s, n))
    ensures PopBatch(cfg, s, n).inflation == PopMany(cfg, s, n).inflation
  {
    PopsTakeTheLowest(cfg, s, n);
  }

  /** A clean size above the maximum empties the cache at the first overflow and tells
      the callback nothing; at most the maximum, nothing goes unreported. */
  lemma OverflowReportsIff(cfg: Config, s: Cache, k: Key, v: Value)
    requires Valid(cfg, s) && UnitSizes(cfg) && Full(cfg, s) && k !in s.data && cfg.maxsize >= 1
    requires cfg.popMode.Batched? && cfg.popMode.cleanSize >= 1
    ensures var t := SetItem(cfg, s, k, v);
      Told(s, t) <==> cfg.popMode.cleanSize <= cfg.maxsize
  {
    hide Valid, PopBatch, MakeRoom, Victims;
    var n := cfg.popMode.cleanSize;
    OverflowIsOneBatch(cfg, s);
    BatchReports(cfg, s, n);
    BatchLosesNothingIff(cfg, s, n);
    var room := PopBatch(cfg, s, n);
    assert room == Room(cfg, s, k, v);
    var t := SetItem(cfg, s, k, v);
    assert t.past.calls == room.past.calls && t.past.evicted == room.past.evicted;
  }

  // ---------- a clean size of zero ----------

  /** `EvictionBase.get` replaces a missing clean size by a fifth of the maximum. */
  function DefaultCleanSize(maxsize: nat): (n: nat) {
    (maxsize as real * 0.2).Floor
  }

  lemma DefaultCleanSizeIsZeroIff(maxsize: nat)
    ensures DefaultCleanSize(maxsize) == 0 <==> maxsize < 5
    ensures 5 * DefaultCleanSize(maxsize) <= maxsize < 5 * (DefaultCleanSize(maxsize) + 1)
  {
    assert DefaultCleanSize(maxsize) as real <= maxsize as real * 0.2 < (DefaultCleanSize(maxsize) + 1) as real;
  }

  ghost function PopBatchTimes(cfg: Config, s: Cache, n: nat, times: nat): (r: Cache)
    requires Valid(cfg, s)
    ensures Valid(cfg, r)
    decreases times
  {
    if times == 0 then s else PopBatchTimes(cfg, PopBatch(cfg, s, n), n, times - 1)
  }

  /** The overflow loop with wrapped `popitem` ends after some number of rounds exactly
      when the clean size is positive or there is room already: with 0 its guard never
      changes. */
  lemma OverflowLoopEndsIff(cfg: Config, s: Cache, size: nat, n: nat)
    requires Valid(cfg, s) && size <= cfg.maxsize
    ensures (exists times: nat :: PopBatchTimes(cfg, s, n, times).currsize + size <= cfg.maxsize)
       <==> n >= 1 || s.currsize + size <= cfg.maxsize
  {
    if s.currsize + size <= cfg.maxsize {
      assert PopBatchTimes(cfg, s, n, 0) == s;
    } else if n == 0 {
      forall times: nat
        ensures PopBatchTimes(cfg, s, 0, times).currsize == s.currsize
      {
        ZeroBatchSpins(cfg, s, times);
      }
    } else {
      BatchesEmptyTheCache(cfg, s, n, |s.data|);
      EmptySize(cfg, PopBatchTimes(cfg, s, n, |s.data|));
    }
  }

  lemma EmptySize(cfg: Config, s: Cache)
    requires Valid(cfg, s) && s.data == map[]
    ensures s.currsize == 0
  {
  }

  lemma {:induction false} ZeroBatchSpins(cfg: Config, s: Cache, times: nat)
    requires Valid(cfg, s)
    ensures PopBatchTimes(cfg, s, 0, times).currsize == s.currsize
    decreases times
  {
    if times != 0 {
      assert PopBatch(cfg, s, 0).currsize == s.currsize;
      hide Valid, PopBatch;
      ZeroBatchSpins(cfg, PopBatch(cfg, s, 0), times - 1);
    }
  }

  lemma {:induction false} BatchesEmptyTheCache(cfg: Config, s: Cache, n: nat, times: nat)
    requires Valid(cfg, s) && n >= 1 && |s.data| <= times
    ensures PopBatchTimes(cfg, s, n, times).data == map[]
    decreases times
  {
    hide Valid, PopBatch;
    if times != 0 {
      BatchShrinks(cfg, s, n);
      BatchesEmptyTheCache(cfg, PopBatch(cfg, s, n), n, times - 1);
    } else {
      assert |s.data| == 0;
    }
  }

  lemma BatchShrinks(cfg: Config, s: Cache, n: nat)
    requires Valid(cfg, s) && n >= 1
    ensures |s.data| > 0 ==> |PopBatch(cfg, s, n).data| <= |s.data| - 1
    ensures |s.data| == 0 ==> |PopBatch(cfg, s, n).data| == 0
  {
    hide Valid, PopMany, Victims;
    PopManySize(cfg, s, n);
  }
}
