/** benchmarks/run_bench.py: the replay loop and its books, for any eviction policy. */
module Replay {
  import opened Basics
  import opened PolicyIndex

  datatype Model = Model(baseMs: real, msPerToken: real, hitMs: real)

  /** What `run_one` reports, percentiles and rates aside. */
  datatype Books = Books(hits: nat, savedTokens: real, totalTokens: real, latencies: seq<real>, evictions: int)

  /** `max(1, int(maxsize * clean_ratio))` */
  function CleanSize(maxsize: nat, ratio: real): (n: int)
    ensures n >= 1
    ensures maxsize >= 1 && ratio <= 1.0 ==> n <= maxsize
  {
    var n := (maxsize as real * ratio).Floor;
    ProductAtMost(maxsize, ratio);
    if n > 1 then n else 1
  }

  /** The whole part of the product, but at least 1. */
  lemma CleanSizeIs(maxsize: nat, ratio: real)
    ensures var n, x := CleanSize(maxsize, ratio), maxsize as real * ratio;
      (x < 2.0 ==> n == 1) && (x >= 1.0 ==> n as real <= x < (n + 1) as real)
  {
  }

  lemma ProductAtMost(maxsize: nat, ratio: real)
    ensures ratio <= 1.0 ==> (maxsize as real * ratio).Floor <= maxsize
  {
    if ratio <= 1.0 {
      assert maxsize as real * ratio <= maxsize as real * 1.0;
    }
  }

  /** Hits pay a constant, misses a base and a rate per generated token. */
  function ExpectedLatency(m: Model, hits: nat, misses: nat, generated: real): real {
    m.hitMs * hits as real + m.baseMs * misses as real + m.msPerToken * generated
  }

  function MissMs(m: Model, cost: real): real {
    m.baseMs + m.msPerToken * cost
  }

  function SumReal(xs: seq<real>): real {
    if |xs| == 0 then 0.0 else SumReal(xs[..|xs| - 1]) + xs[|xs| - 1]
  }

  function Tokens(requests: seq<(Key, real)>): real {
    if |requests| == 0 then 0.0 else Tokens(requests[..|requests| - 1]) + requests[|requests| - 1].1
  }

  lemma SumPush(xs: seq<real>, x: real)
    ensures SumReal(xs + [x]) == SumReal(xs) + x
  {
    assert (xs + [x])[..|xs|] == xs;
  }

  /** The cache and all the locals of the loop; `told` collects what `on_evict` was given. */
  datatype Sim = Sim(ix: Index, inCache: set<Key>, told: seq<Key>, hits: nat, saved: real, total: real,
                     latencies: seq<real>)

  /** Inserting a missing key, overflow included, and what `on_evict` is given. */
  function PutKey(policy: Policy, maxsize: nat, cleanSize: nat, ix: Index, k: Key, cost: real): (r: (Index, seq<Key>)) {
    if |ix.keys| + 1 > maxsize
    then (Store(PopMany(policy, ix, cleanSize), k, cost), Reported(policy, ix, cleanSize))
    else (Store(ix, k, cost), [])
  }

  /** One request of the replay. */
  function Next(policy: Policy, maxsize: nat, cleanSize: nat, m: Model, s: Sim, k: Key, cost: real): Sim {
    if k in s.inCache then
      s.(ix := Touch(s.ix, k), hits := s.hits + 1, saved := s.saved + cost, total := s.total + cost,
         latencies := s.latencies + [m.hitMs])
    else
      var (ix, reported) := PutKey(policy, maxsize, cleanSize, s.ix, k, cost);
      s.(ix := ix, inCache := s.inCache - Members(reported) + {k}, told := s.told + reported, total := s.total + cost,
         latencies := s.latencies + [MissMs(m, cost)])
  }

  function After(policy: Policy, maxsize: nat, cleanSize: nat, m: Model, requests: seq<(Key, real)>): Sim {
    if |requests| == 0 then Sim(Index({}, []), {}, [], 0, 0.0, 0.0, [])
    else Next(policy, maxsize, cleanSize, m, After(policy, maxsize, cleanSize, m, requests[..|requests| - 1]),
              requests[|requests| - 1].0, requests[|requests| - 1].1)
  }

  /** The books after `done` requests: the mirror set is the cache, every request was a hit,
      is still cached, or was reported evicted, and the latencies add up. */
  ghost predicate Balanced(s: Sim, maxsize: nat, m: Model, done: nat) {
    && s.inCache == s.ix.keys && |s.ix.keys| <= maxsize
    && s.hits <= done == |s.latencies|
    && done - s.hits == |s.inCache| + |s.told|
    && SumReal(s.latencies) == ExpectedLatency(m, s.hits, done - s.hits, s.total - s.saved)
  }

  lemma HitBalances(policy: Policy, maxsize: nat, cleanSize: nat, m: Model, s: Sim, k: Key, cost: real, done: nat)
    requires Balanced(s, maxsize, m, done) && k in s.inCache
    ensures Balanced(Next(policy, maxsize, cleanSize, m, s, k, cost), maxsize, m, done + 1)
  {
    SumPush(s.latencies, m.hitMs);
    assert m.hitMs * (s.hits + 1) as real == m.hitMs * s.hits as real + m.hitMs;
    assert (s.total + cost) - (s.saved + cost) == s.total - s.saved;
  }

  lemma MissLatency(m: Model, hits: nat, misses: nat, generated: real, cost: real)
    ensures ExpectedLatency(m, hits, misses + 1, generated + cost)
         == ExpectedLatency(m, hits, misses, generated) + MissMs(m, cost)
  {
    assert m.baseMs * (misses + 1) as real == m.baseMs * misses as real + m.baseMs;
    assert m.msPerToken * (generated + cost) == m.msPerToken * generated + m.msPerToken * cost;
  }

  lemma PutKeyFacts(policy: Policy, maxsize: nat, cleanSize: nat, ix: Index, k: Key, cost: real)
    requires Sound(policy) && 1 <= cleanSize <= maxsize && |ix.keys| <= maxsize && k !in ix.keys
    ensures var (next, reported) := PutKey(policy, maxsize, cleanSize, ix, k, cost);
      && next.keys == ix.keys - Members(reported) + {k} && |next.keys| <= maxsize
      && |next.keys| + |reported| == |ix.keys| + 1
  {
    if |ix.keys| + 1 > maxsize {
      VictimsLeave(policy, ix, cleanSize);
      SizeMinus(ix.keys, Members(Victims(policy, ix, cleanSize)));
    } else {
      assert ix.keys - Members([]) == ix.keys;
    }
  }

  lemma SizeMinus(a: set<Key>, b: set<Key>)
    requires b <= a
    ensures |a - b| == |a| - |b|
  {
  }

  lemma MissBalances(policy: Policy, maxsize: nat, cleanSize: nat, m: Model, s: Sim, k: Key, cost: real, done: nat)
    requires Balanced(s, maxsize, m, done) && k !in s.inCache
    requires Sound(policy) && 1 <= cleanSize <= maxsize
    ensures Balanced(Next(policy, maxsize, cleanSize, m, s, k, cost), maxsize, m, done + 1)
  {
    hide Sound, PutKey, ExpectedLatency, SumReal, MissMs;
    PutKeyFacts(policy, maxsize, cleanSize, s.ix, k, cost);
    SumPush(s.latencies, MissMs(m, cost));
    MissLatency(m, s.hits, done - s.hits, s.total - s.saved, cost);
    assert (s.total + cost) - s.saved == s.total - s.saved + cost;
  }

  /** Replay accounting, for every policy and every workload. */
  lemma {:induction false} ReplayBalances(policy: Policy, maxsize: nat, cleanSize: nat, m: Model, requests: seq<(Key, real)>)
    requires Sound(policy) && 1 <= cleanSize <= maxsize
    ensures var s := After(policy, maxsize, cleanSize, m, requests);
      Balanced(s, maxsize, m, |requests|) && s.total == Tokens(requests)
    decreases |requests|
  {
    hide Sound, Next, Balanced;
    if |requests| == 0 {
      NothingBalances(maxsize, m);
    } else {
      var front := requests[..|requests| - 1];
      var (k, cost) := requests[|requests| - 1];
      ReplayBalances(policy, maxsize, cleanSize, m, front);
      var s := After(policy, maxsize, cleanSize, m, front);
      NextTotal(policy, maxsize, cleanSize, m, s, k, cost);
      if k in s.inCache {
        HitBalances(policy, maxsize, cleanSize, m, s, k, cost, |front|);
      } else {
        MissBalances(policy, maxsize, cleanSize, m, s, k, cost, |front|);
      }
    }
  }

  lemma NextTotal(policy: Policy, maxsize: nat, cleanSize: nat, m: Model, s: Sim, k: Key, cost: real)
    ensures Next(policy, maxsize, cleanSize, m, s, k, cost).total == s.total + cost
  {
  }

  lemma NothingBalances(maxsize: nat, m: Model)
    ensures Balanced(Sim(Index({}, []), {}, [], 0, 0.0, 0.0, []), maxsize, m, 0)
  {
  }

  /** What one more request does, field by field: a cached key is touched and pays the hit
      latency, a missing one is put with its cost and pays for its tokens; keys are evicted,
      `cleanSize` of them and reported, only by a miss on a full cache. */
  ghost predicate OneMore(maxsize: nat, cleanSize: nat, m: Model, s: Sim, t: Sim, k: Key, cost: real) {
    && t.total == s.total + cost
    && if k in s.ix.keys then
         && t.hits == s.hits + 1 && t.saved == s.saved + cost && t.latencies == s.latencies + [m.hitMs]
         && t.told == s.told && t.ix.keys == s.ix.keys
         && Unpopped(t.ix.accesses) == Unpopped(s.ix.accesses) + [Touched(k)]
       else
         && t.hits == s.hits && t.saved == s.saved
         && t.latencies == s.latencies + [m.baseMs + m.msPerToken * cost]
         && s.told <= t.told
         && |t.told| == |s.told| + (if |s.ix.keys| < maxsize then 0 else cleanSize)
         && t.ix.keys == s.ix.keys - Members(t.told[|s.told|..]) + {k}
         && Unpopped(t.ix.accesses) == Unpopped(s.ix.accesses) + [Stored(k, cost)]
  }

  lemma PutKeyTells(policy: Policy, maxsize: nat, cleanSize: nat, ix: Index, k: Key, cost: real)
    requires Sound(policy) && 1 <= cleanSize <= maxsize && |ix.keys| <= maxsize
    ensures var p := PutKey(policy, maxsize, cleanSize, ix, k, cost);
      && Unpopped(p.0.accesses) == Unpopped(ix.accesses) + [Stored(k, cost)]
      && |p.1| == (if |ix.keys| < maxsize then 0 else cleanSize)
      && p.0.keys == ix.keys - Members(p.1) + {k}
  {
    hide Sound, PopMany, Victims, Unpopped, PolicyIndex.Next;
    if |ix.keys| + 1 > maxsize {
      VictimsLeave(policy, ix, cleanSize);
      PopManyTells(policy, ix, cleanSize);
      UnpoppedOne(ix.accesses, Victims(policy, ix, cleanSize), Stored(k, cost));
    } else {
      UnpoppedOne(ix.accesses, [], Stored(k, cost));
      assert ix.accesses + Pops([]) == ix.accesses;
      assert ix.keys - Members([]) == ix.keys;
    }
  }

  lemma NextIs(policy: Policy, maxsize: nat, cleanSize: nat, m: Model, s: Sim, k: Key, cost: real)
    requires Sound(policy) && 1 <= cleanSize <= maxsize && |s.ix.keys| <= maxsize && s.inCache == s.ix.keys
    ensures OneMore(maxsize, cleanSize, m, s, Next(policy, maxsize, cleanSize, m, s, k, cost), k, cost)
  {
    hide Sound, PutKey, Unpopped, Next;
    NextFields(policy, maxsize, cleanSize, m, s, k, cost);
    if k in s.inCache {
      UnpoppedOne(s.ix.accesses, [], Touched(k));
      assert s.ix.accesses + Pops([]) == s.ix.accesses;
    } else {
      PutKeyTells(policy, maxsize, cleanSize, s.ix, k, cost);
      var p := PutKey(policy, maxsize, cleanSize, s.ix, k, cost);
      assert (s.told + p.1)[|s.told|..] == p.1;
    }
  }

  lemma RequestIs(policy: Policy, maxsize: nat, cleanSize: nat, m: Model, requests: seq<(Key, real)>, k: Key, cost: real)
    requires Sound(policy) && 1 <= cleanSize <= maxsize
    ensures OneMore(maxsize, cleanSize, m, After(policy, maxsize, cleanSize, m, requests),
                    After(policy, maxsize, cleanSize, m, requests + [(k, cost)]), k, cost)
  {
    hide Sound, Next, OneMore, ExpectedLatency, SumReal, Balanced;
    ReplayBalances(policy, maxsize, cleanSize, m, requests);
    var s := After(policy, maxsize, cleanSize, m, requests);
    BalancedFacts(s, maxsize, m, |requests|);
    assert (requests + [(k, cost)])[..|requests|] == requests;
    NextIs(policy, maxsize, cleanSize, m, s, k, cost);
  }

  lemma UnpoppedOne(h: seq<Access>, ks: seq<Key>, a: Access)
    requires !a.Popped?
    ensures Unpopped(h + Pops(ks) + [a]) == Unpopped(h) + [a]
  {
    UnpoppedConcat(h + Pops(ks), [a]);
    UnpoppedConcat(h, Pops(ks));
    UnpoppedPops(ks);
  }

  // ---------- the loop ----------

  /** `cache.put([pid], ...)` for a pid that is not cached. */
  method PutMiss(cache: EvictionIndex, k: Key, cost: real) returns (reported: seq<Key>)
    requires Sound(cache.policy) && 1 <= cache.cleanSize <= cache.maxsize && |cache.keys| <= cache.maxsize
    modifies cache
    ensures (cache.Abs(), reported) == PutKey(cache.policy, cache.maxsize, cache.cleanSize, old(cache.Abs()), k, cost)
  {
    hide Sound, Store, PopMany, Reported;
    reported := [];
    ghost var ix := cache.Abs();
    while |cache.keys| + 1 > cache.maxsize
      invariant (cache.Abs() == ix && reported == []) ||
        (|ix.keys| + 1 > cache.maxsize && |cache.keys| + 1 <= cache.maxsize
         && cache.Abs() == PopMany(cache.policy, ix, cache.cleanSize)
         && reported == Reported(cache.policy, ix, cache.cleanSize))
      decreases |cache.keys|
    {
      RoomAgain(cache.policy, ix, cache.cleanSize, cache.maxsize);
      reported := cache.PopBatch();
    }
    cache.StoreKey(k, cost);
  }

  lemma RoomAgain(policy: Policy, ix: Index, n: nat, maxsize: nat)
    requires Sound(policy) && 1 <= n <= |ix.keys| <= maxsize
    ensures |PopMany(policy, ix, n).keys| + 1 <= maxsize
  {
    VictimsLeave(policy, ix, n);
    SizeMinus(ix.keys, Members(Victims(policy, ix, n)));
  }

  lemma AfterNone(policy: Policy, maxsize: nat, cleanSize: nat, m: Model, requests: seq<(Key, real)>)
    ensures After(policy, maxsize, cleanSize, m, requests[..0]) == Sim(Index({}, []), {}, [], 0, 0.0, 0.0, [])
  {
  }

  lemma AfterOne(policy: Policy, maxsize: nat, cleanSize: nat, m: Model, requests: seq<(Key, real)>, i: nat)
    requires i < |requests|
    ensures After(policy, maxsize, cleanSize, m, requests[..i + 1])
         == Next(policy, maxsize, cleanSize, m, After(policy, maxsize, cleanSize, m, requests[..i]),
                 requests[i].0, requests[i].1)
  {
    assert requests[..i + 1][..i] == requests[..i];
  }

  lemma NextFields(policy: Policy, maxsize: nat, cleanSize: nat, m: Model, s: Sim, k: Key, cost: real)
    ensures var t := Next(policy, maxsize, cleanSize, m, s, k, cost);
      if k in s.inCache then
        t == Sim(Touch(s.ix, k), s.inCache, s.told, s.hits + 1, s.saved + cost, s.total + cost, s.latencies + [m.hitMs])
      else
        var p := PutKey(policy, maxsize, cleanSize, s.ix, k, cost);
        t == Sim(p.0, s.inCache - Members(p.1) + {k}, s.told + p.1, s.hits, s.saved, s.total + cost,
                 s.latencies + [MissMs(m, cost)])
  {
    hide MissMs, PutKey, Touch, Members;
  }

  lemma BalancedFacts(s: Sim, maxsize: nat, m: Model, done: nat)
    requires Balanced(s, maxsize, m, done)
    ensures s.inCache == s.ix.keys && |s.ix.keys| <= maxsize && s.hits <= done
    ensures done - s.hits == |s.inCache| + |s.told|
    ensures SumReal(s.latencies) == ExpectedLatency(m, s.hits, done - s.hits, s.total - s.saved)
  {
  }

  /** `run_one`.  With a clean ratio of at most 1 and a cache that can hold something: the
      mirror set ends as the cache's keys, the reported evictions are the keys handed to
      `on_evict`, and the latencies add up. */
  method RunOne(policy: Policy, maxsize: nat, requests: seq<(Key, real)>, ratio: real, m: Model)
    returns (b: Books, inCache: set<Key>)
    requires Sound(policy) && maxsize >= 1 && ratio <= 1.0
    ensures var s := After(policy, maxsize, CleanSize(maxsize, ratio), m, requests);
      && b == Books(s.hits, s.saved, s.total, s.latencies, |s.told|)
      && inCache == s.ix.keys
    ensures b.hits <= |requests| && |inCache| <= maxsize && b.totalTokens == Tokens(requests)
    ensures b.evictions == |requests| - b.hits - |inCache|
    ensures SumReal(b.latencies) == ExpectedLatency(m, b.hits, |requests| - b.hits, b.totalTokens - b.savedTokens)
  {
    hide Sound, SumReal, ExpectedLatency, PutKey, Next, After, Balanced, Touch, MissMs;
    var cleanSize := CleanSize(maxsize, ratio);
    var cache := new EvictionIndex(policy, maxsize, cleanSize);
    inCache := {};
    var hits, saved, total := 0, 0.0, 0.0;
    var lat: seq<real> := [];
    ghost var told: seq<Key> := [];
    AfterNone(policy, maxsize, cleanSize, m, requests);
    for i := 0 to |requests|
      invariant cache.policy == policy && cache.maxsize == maxsize && cache.cleanSize == cleanSize && fresh(cache)
      invariant Sim(cache.Abs(), inCache, told, hits, saved, total, lat)
             == After(policy, maxsize, cleanSize, m, requests[..i])
    {
      var (pid, cost) := requests[i];
      ghost var s := After(policy, maxsize, cleanSize, m, requests[..i]);
      AfterOne(policy, maxsize, cleanSize, m, requests, i);
      ReplayBalances(policy, maxsize, cleanSize, m, requests[..i]);
      BalancedFacts(s, maxsize, m, i);
      NextFields(policy, maxsize, cleanSize, m, s, pid, cost);
      total := total + cost;
      if pid in inCache {
        cache.Get(pid);
        hits := hits + 1;
        saved := saved + cost;
        lat := lat + [m.hitMs];
      } else {
        var reported := PutMiss(cache, pid, cost);
        inCache := inCache - Members(reported) + {pid};
        told := told + reported;
        lat := lat + [MissMs(m, cost)];
      }
    }
    assert requests[..|requests|] == requests;
    ReplayBalances(policy, maxsize, cleanSize, m, requests);
    BalancedFacts(After(policy, maxsize, cleanSize, m, requests), maxsize, m, |requests|);
    b := Books(hits, saved, total, lat, |requests| - hits - |inCache|);
  }
}
