/** Conservation of keys and the amount of heap work, over every run. */
module Accounting {
  import opened Basics
  import opened Heapq
  import opened GdsfModel
  import opened GdsfPaths
  import Eviction

  /** Every insertion is accounted for: resident, evicted or deleted, once each; every
      push is accounted for: still in the heap, popped as a victim or skipped as stale. */
  ghost predicate Balanced(s: Cache) {
    && s.past.inserted == multiset(s.data.Keys) + multiset(s.past.evicted) + s.past.deleted
    && s.clock == |s.heap| + |s.past.evicted| + s.past.discards
    && s.clock == |s.past.inserted| + s.past.hits + s.past.overwrites
  }

  lemma EmptyBalanced()
    ensures Balanced(Empty())
  {
  }

  lemma HeapSplits(heap: set<Entry>, m: Entry)
    requires m in heap
    ensures |heap| == |Above(heap, m)| + Skipped(heap, m) + 1
  {
    var skipped := set e | e in heap && Leq(e, m) && e != m;
    assert heap == Above(heap, m) + skipped + {m};
  }

  lemma KeysLeave(data: map<Key, Value>, k: Key)
    requires k in data
    ensures multiset((data - {k}).Keys) + multiset{k} == multiset(data.Keys)
  {
    assert (data - {k}).Keys == data.Keys - {k};
  }

  lemma KeysEnter(data: map<Key, Value>, k: Key, v: Value)
    ensures k in data ==> data[k := v].Keys == data.Keys
    ensures k !in data ==> multiset(data[k := v].Keys) == multiset(data.Keys) + multiset{k}
  {
    assert data[k := v].Keys == data.Keys + {k};
  }

  lemma EvictBalanced(cfg: Config, s: Cache)
    requires Valid(cfg, s) && s.data != map[] && Balanced(s)
    ensures Balanced(Evict(cfg, s))
  {
    hide Valid, Least, Live, Above, Skipped, Victim;
    var m := Victim(cfg, s);
    HeapSplits(s.heap, m);
    KeysLeave(s.data, m.key);
    assert multiset(s.past.evicted + [m.key]) == multiset(s.past.evicted) + multiset{m.key};
  }

  lemma PushCounts(cfg: Config, s: Cache, k: Key, v: Value)
    requires k in s.freq && (forall e :: e in s.heap ==> e.tick < s.clock)
    ensures var t := Push(cfg, s, k, v);
      t.data == s.data && t.past == s.past && t.clock == s.clock + 1 && |t.heap| == |s.heap| + 1
  {
    var e := Entry(Priority(cfg, s.inflation, s.freq[k], v), s.clock, k);
    assert e !in s.heap;
  }

  lemma TicksPast(cfg: Config, s: Cache)
    requires Valid(cfg, s)
    ensures forall e :: e in s.heap ==> e.tick < s.clock
    ensures s.freq.Keys == s.data.Keys
  {
  }

  lemma PutBalanced(cfg: Config, s: Cache, k: Key, v: Value)
    requires Balanced(s) && (forall e :: e in s.heap ==> e.tick < s.clock)
    ensures Balanced(Push(cfg, Store(cfg, s, k, v), k, v))
  {
    hide Push;
    KeysEnter(s.data, k, v);
    PushCounts(cfg, Store(cfg, s, k, v), k, v);
  }

  lemma MoveBalanced(cfg: Config, s: Cache, m: Move)
    requires Valid(cfg, s) && Enabled(cfg, s, m) && Balanced(s)
    ensures Balanced(Apply(cfg, s, m))
  {
    hide Valid, Evict, Push, Victim;
    TicksPast(cfg, s);
    match m
    case EvictOne => EvictBalanced(cfg, s);
    case Put(k, v) => PutBalanced(cfg, s, k, v);
    case Hit(k) => PushCounts(cfg, Touch(s, k), k, s.data[k]);
    case Drop(k) => KeysLeave(s.data, k);
    case _ =>
  }

  lemma {:induction false} PathBalanced(cfg: Config, s: Cache, ms: seq<Move>, t: Cache)
    requires Valid(cfg, s) && Path(cfg, s, ms, t) && Balanced(s)
    ensures Balanced(t)
    decreases |ms|
  {
    hide Valid, Apply, Enabled, Balanced;
    if |ms| != 0 {
      MoveBalanced(cfg, s, ms[0]);
      PathBalanced(cfg, Apply(cfg, s, ms[0]), ms[1..], t);
    }
  }

  /** Conservation over runs: insertions are residents plus victims plus deletions, as
      multisets, so a key leaves exactly once per residency. */
  lemma RunBalanced(cfg: Config, s: Cache, ops: seq<Op>)
    requires Valid(cfg, s) && Progressive(cfg) && Balanced(s)
    ensures Balanced(Run(cfg, s, ops))
  {
    hide Valid, Run, Path, Balanced;
    var ms := RunPath(cfg, s, ops);
    PathBalanced(cfg, s, ms, Run(cfg, s, ops));
  }

  lemma {:induction false} ImageSize(heap: set<Entry>, keys: set<Key>)
    requires forall k :: k in keys ==> exists e :: e in heap && e.key == k
    ensures |keys| <= |heap|
    decreases |keys|
  {
    if keys != {} {
      var k :| k in keys;
      var e :| e in heap && e.key == k;
      forall j | j in keys - {k}
        ensures exists f :: f in heap - {e} && f.key == j
      {
        var f :| f in heap && f.key == j;
        assert f in heap - {e};
      }
      ImageSize(heap - {e}, keys - {k});
    }
  }

  lemma HeapCoversResidents(cfg: Config, s: Cache)
    requires Valid(cfg, s)
    ensures |s.data| <= |s.heap|
  {
    forall k | k in s.data.Keys
      ensures exists e :: e in s.heap && e.key == k
    {
      assert Represented(s.heap, s.prio, k);
    }
    ImageSize(s.heap, s.data.Keys);
  }

  /** Amortised heap work: the stale entries a whole run ever skips are at most its hits,
      overwrites and explicit deletions. */
  lemma SkipsArePaidFor(cfg: Config, ops: seq<Op>)
    requires Progressive(cfg)
    ensures var past := Reached(cfg, ops).past;
      past.discards <= past.hits + past.overwrites + |past.deleted|
  {
    EmptyValid(cfg);
    EmptyBalanced();
    var t := Run(cfg, Empty(), ops);
    RunBalanced(cfg, Empty(), ops);
    HeapCoversResidents(cfg, t);
    hide Valid, Run;
    assert |multiset(t.data.Keys)| == |t.data.Keys| == |t.data|;
    assert |multiset(t.past.evicted)| == |t.past.evicted|;
  }

  // ---------- what on_evict has been told ----------

  function Flat(calls: seq<seq<Key>>): seq<Key> {
    if calls == [] then [] else Flat(calls[..|calls| - 1]) + calls[|calls| - 1]
  }

  /** The concatenation of all calls is the sequence of all victims. */
  ghost predicate Informed(s: Cache) {
    Flat(s.past.calls) == s.past.evicted
  }

  lemma ToldInformed(s: Cache, t: Cache, ks: seq<Key>)
    requires Informed(s) && t.past.calls == s.past.calls + [ks] && t.past.evicted == s.past.evicted + ks
    ensures Informed(t)
  {
    assert t.past.calls[..|t.past.calls| - 1] == s.past.calls;
  }

  lemma SetInformed(cfg: Config, s: Cache, k: Key, v: Value)
    requires Valid(cfg, s) && Eviction.UnitSizes(cfg) && Informed(s)
    requires cfg.popMode.Batched? && 1 <= cfg.popMode.cleanSize <= cfg.maxsize
    ensures Informed(SetItem(cfg, s, k, v))
  {
    Eviction.UnitCount(cfg, s);
    var n := cfg.popMode.cleanSize;
    if k !in s.data && Eviction.Full(cfg, s) {
      Eviction.OverflowEvictsTheLowest(cfg, s, k, v);
      ToldInformed(s, SetItem(cfg, s, k, v), Victims(cfg, s, n));
    } else {
      assert Room(cfg, s, k, v) == s;
    }
  }

  /** The operations a MemoryCacheEviction offers: put and get. */
  predicate PutOrGet(op: Op) {
    op.Set? || op.Get?
  }

  /** With unit sizes and a clean size between 1 and the maximum, over every run of puts
      and gets, `on_evict` has been told every victim once, in order of eviction. */
  lemma {:induction false} RunInformed(cfg: Config, s: Cache, ops: seq<Op>)
    requires Valid(cfg, s) && Eviction.UnitSizes(cfg) && Informed(s)
    requires cfg.popMode.Batched? && 1 <= cfg.popMode.cleanSize <= cfg.maxsize
    requires forall op :: op in ops ==> PutOrGet(op)
    ensures Informed(Run(cfg, s, ops))
    decreases |ops|
  {
    hide Valid, SetItem, Informed;
    if |ops| != 0 {
      assert PutOrGet(ops[0]);
      if ops[0].Set? {
        SetInformed(cfg, s, ops[0].k, ops[0].v);
      } else {
        GetSilent(cfg, s, ops[0].k);
      }
      RunInformed(cfg, Step(cfg, s, ops[0]), ops[1..]);
    }
  }

  lemma {:induction false} PathDeletesNothing(cfg: Config, s: Cache, ms: seq<Move>, t: Cache)
    requires Valid(cfg, s) && Path(cfg, s, ms, t) && forall m :: m in ms ==> !m.Drop?
    ensures t.past.deleted == s.past.deleted
    decreases |ms|
  {
    hide Valid, Apply, Enabled;
    if |ms| != 0 {
      assert !ms[0].Drop?;
      MoveDeletesNothing(cfg, s, ms[0]);
      PathDeletesNothing(cfg, Apply(cfg, s, ms[0]), ms[1..], t);
    }
  }

  lemma MoveDeletesNothing(cfg: Config, s: Cache, m: Move)
    requires Valid(cfg, s) && Enabled(cfg, s, m) && !m.Drop?
    ensures Apply(cfg, s, m).past.deleted == s.past.deleted
  {
    hide Valid, Evict, Victim, Weight, Priority;
    if m.EvictOne? {
      Eviction.EvictTakesVictim(cfg, s);
    }
  }

  /** The conservation law of the eviction index: over every run of puts and gets, the keys
      inserted are the residents and the keys passed to `on_evict`, each once per insertion. */
  lemma InsertedAreResidentOrReported(cfg: Config, ops: seq<Op>)
    requires Eviction.UnitSizes(cfg) && cfg.popMode.Batched? && 1 <= cfg.popMode.cleanSize <= cfg.maxsize
    requires forall op :: op in ops ==> PutOrGet(op)
    ensures var t := Reached(cfg, ops);
      t.past.inserted == multiset(t.data.Keys) + multiset(Flat(t.past.calls))
  {
    EmptyValid(cfg);
    EmptyBalanced();
    hide Valid, Run, Path, From, Eviction.UnitSizes;
    RunBalanced(cfg, Empty(), ops);
    RunInformed(cfg, Empty(), ops);
    var ms := RunPath(cfg, Empty(), ops);
    forall m | m in ms
      ensures !m.Drop?
    {
      var i :| 0 <= i < |ms| && ms[i] == m;
      var j :| 0 <= j < |ops| && From(ops[j], ms[i]);
      assert ops[j] in ops && PutOrGet(ops[j]);
      OnlyDelDrops(ops[j], ms[i]);
    }
    PathDeletesNothing(cfg, Empty(), ms, Run(cfg, Empty(), ops));
  }

  lemma OnlyDelDrops(op: Op, m: Move)
    requires From(op, m) && PutOrGet(op)
    ensures !m.Drop?
  {
  }

  lemma GetSilent(cfg: Config, s: Cache, k: Key)
    requires Valid(cfg, s)
    ensures Informed(GetItem(cfg, s, k)) == Informed(s)
  {
  }
}
