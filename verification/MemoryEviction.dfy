/** gptcache/manager/eviction/memory_cache.py with the GDSF policy. */
module MemoryEviction {
  import opened Basics
  import M = GdsfModel
  import opened GdsfCache
  import Operations = GdsfOperations

  /** How a `put` ends: IndexError when `costs` is too short, ValueError when a value does
      not fit at all; entries before the failing one have been stored. */
  datatype Outcome = Done | IndexError | ValueError

  function CostAt(costs: Option<seq<real>>, i: nat): (v: Option<M.Value>) {
    match costs
    case None => Some(M.Other)
    case Some(cs) => if i < |cs| then Some(M.Number(cs[i])) else None
  }

  /** The longest prefix of `objs` that `put` stores. */
  function Stored(cfg: M.Config, objs: seq<Key>, costs: Option<seq<real>>, i: nat): (n: nat)
    requires i <= |objs|
    ensures i <= n <= |objs|
    ensures forall j :: i <= j < n ==> CostAt(costs, j).Some? && !M.TooLarge(cfg, CostAt(costs, j).value)
    ensures n < |objs| ==> CostAt(costs, n).None? || M.TooLarge(cfg, CostAt(costs, n).value)
    decreases |objs| - i
  {
    if i < |objs| && CostAt(costs, i).Some? && !M.TooLarge(cfg, CostAt(costs, i).value)
    then Stored(cfg, objs, costs, i + 1) else i
  }

  /** The operations `put` performs on entries `i..n`. */
  function Puts(objs: seq<Key>, costs: Option<seq<real>>, i: nat, n: nat): (ops: seq<M.Op>)
    requires i <= n <= |objs|
    requires forall j :: i <= j < n ==> CostAt(costs, j).Some?
    ensures |ops| == n - i
    ensures forall j :: 0 <= j < n - i ==> ops[j] == M.Set(objs[i + j], CostAt(costs, i + j).value)
  {
    seq(n - i, j requires 0 <= j < n - i => M.Set(objs[i + j], CostAt(costs, i + j).value))
  }

  /** No set of the put spins for ever, as with a clean size of 0 one would that overflows. */
  ghost predicate PutsReturn(cfg: M.Config, s: M.Cache, objs: seq<Key>, costs: Option<seq<real>>)
    requires M.Valid(cfg, s)
  {
    M.AllReturn(cfg, s, Puts(objs, costs, 0, Stored(cfg, objs, costs, 0)))
  }

  /** `put` is a run of sets, so whatever holds over runs holds over puts. */
  ghost function PutAll(cfg: M.Config, s: M.Cache, objs: seq<Key>, costs: Option<seq<real>>): (r: M.Cache)
    requires M.Valid(cfg, s) && PutsReturn(cfg, s, objs, costs)
    ensures M.Valid(cfg, r)
  {
    M.Run(cfg, s, Puts(objs, costs, 0, Stored(cfg, objs, costs, 0)))
  }

  class MemoryCacheEviction {
    const cache: GDSFCache

    ghost predicate Valid()
      reads this, cache
    {
      cache.Valid() && cache.cfg.popMode.Batched?
    }

    constructor (maxsize: nat, cleanSize: nat, getsizeof: M.Value -> nat)
      ensures Valid() && fresh(cache)
      ensures cache.cfg == M.Config(maxsize, getsizeof, M.Gdsf, M.Batched(cleanSize))
      ensures cache.Abs() == M.Empty()
    {
      cache := new GDSFCache(M.Config(maxsize, getsizeof, M.Gdsf, M.Batched(cleanSize)));
    }

    method Put(objs: seq<Key>, costs: Option<seq<real>>) returns (outcome: Outcome)
      requires Valid() && PutsReturn(cache.cfg, cache.Abs(), objs, costs)
      modifies cache
      ensures Valid() && cache.Abs() == PutAll(cache.cfg, old(cache.Abs()), objs, costs)
      ensures var n := Stored(cache.cfg, objs, costs, 0);
        outcome == if n == |objs| then Done else if CostAt(costs, n).None? then IndexError else ValueError
    {
      hide M.Valid, M.Run, M.AllReturn, Puts, Stored, GDSFCache.HeapOk;
      StoredStops(cache.cfg, objs, costs);
      var cfg := cache.cfg;
      ghost var s := cache.Abs();
      ghost var n := Stored(cfg, objs, costs, 0);
      var i := 0;
      while i < |objs|
        invariant i <= n && Valid()
        invariant M.AllReturn(cfg, cache.Abs(), Puts(objs, costs, i, n))
        invariant M.Run(cfg, cache.Abs(), Puts(objs, costs, i, n)) == PutAll(cfg, s, objs, costs)
      {
        var v := CostAt(costs, i);
        if v.None? {
          RunNone(cfg, cache.Abs(), objs, costs, n);
          return IndexError;
        }
        ghost var before := cache.Abs();
        NextReturns(cfg, before, objs, costs, i, n);
        var ok := cache.SetItem(objs[i], v.value);
        if !ok {
          TooLargeStays(cfg, before, objs[i], v.value);
          RunNone(cfg, before, objs, costs, n);
          return ValueError;
        }
        RunFirst(cfg, before, objs, costs, i, n);
        i := i + 1;
      }
      RunNone(cfg, cache.Abs(), objs, costs, n);
      outcome := Done;
    }

    /** `self._cache.get(obj)`: a resident is touched, a missing key is not an error. */
    method Get(obj: Key) returns (value: Option<M.Value>)
      requires Valid()
      modifies cache
      ensures Valid() && cache.Abs() == M.GetItem(cache.cfg, old(cache.Abs()), obj)
      ensures value == if obj in old(cache.data) then Some(old(cache.data)[obj]) else None
    {
      if obj in cache.data {
        value := cache.GetItem(obj);
      } else {
        value := None;
      }
    }
  }

  /** Either the next entry is put and its set returns, or it is too large. */
  lemma NextReturns(cfg: M.Config, s: M.Cache, objs: seq<Key>, costs: Option<seq<real>>, i: nat, n: nat)
    requires M.Valid(cfg, s) && i <= n <= |objs| && i < |objs| && n == Stored(cfg, objs, costs, 0)
    requires CostAt(costs, i).Some? && M.AllReturn(cfg, s, Puts(objs, costs, i, n))
    ensures M.Returns(cfg, s, objs[i], CostAt(costs, i).value)
  {
    hide M.Valid, M.SetItem;
    if i < n {
      RunFirst(cfg, s, objs, costs, i, n);
    }
  }

  lemma StoredStops(cfg: M.Config, objs: seq<Key>, costs: Option<seq<real>>)
    ensures var n := Stored(cfg, objs, costs, 0);
      && n <= |objs|
      && (forall j :: 0 <= j < n ==> CostAt(costs, j).Some? && !M.TooLarge(cfg, CostAt(costs, j).value))
      && (n < |objs| ==> CostAt(costs, n).None? || M.TooLarge(cfg, CostAt(costs, n).value))
  {
  }

  lemma RunNone(cfg: M.Config, s: M.Cache, objs: seq<Key>, costs: Option<seq<real>>, n: nat)
    requires M.Valid(cfg, s) && n <= |objs|
    ensures M.AllReturn(cfg, s, Puts(objs, costs, n, n)) && M.Run(cfg, s, Puts(objs, costs, n, n)) == s
  {
    hide M.Valid;
  }

  lemma TooLargeStays(cfg: M.Config, s: M.Cache, k: Key, v: M.Value)
    requires M.Valid(cfg, s) && M.TooLarge(cfg, v)
    ensures M.SetItem(cfg, s, k, v) == s
  {
  }

  lemma RunFirst(cfg: M.Config, s: M.Cache, objs: seq<Key>, costs: Option<seq<real>>, i: nat, n: nat)
    requires M.Valid(cfg, s) && i < n <= |objs|
    requires forall j :: i <= j < n ==> CostAt(costs, j).Some?
    requires M.AllReturn(cfg, s, Puts(objs, costs, i, n))
    ensures M.Returns(cfg, s, objs[i], CostAt(costs, i).value)
    ensures M.AllReturn(cfg, M.SetItem(cfg, s, objs[i], CostAt(costs, i).value), Puts(objs, costs, i + 1, n))
    ensures M.Run(cfg, s, Puts(objs, costs, i, n))
         == M.Run(cfg, M.SetItem(cfg, s, objs[i], CostAt(costs, i).value), Puts(objs, costs, i + 1, n))
  {
    hide M.Valid, M.SetItem;
    assert Puts(objs, costs, i, n)[1..] == Puts(objs, costs, i + 1, n);
  }

  // ---------- what a put stores ----------

  lemma {:induction false} RunKeepsValue(cfg: M.Config, s: M.Cache, objs: seq<Key>, costs: Option<seq<real>>, i: nat, n: nat, k: Key)
    requires M.Valid(cfg, s) && i <= n <= |objs| && forall j :: i <= j < n ==> objs[j] != k
    requires forall j :: i <= j < n ==> CostAt(costs, j).Some? && !M.TooLarge(cfg, CostAt(costs, j).value)
    requires M.AllReturn(cfg, s, Puts(objs, costs, i, n))
    ensures var t := M.Run(cfg, s, Puts(objs, costs, i, n));
      k in t.data ==> k in s.data && t.data[k] == s.data[k]
    decreases n - i
  {
    hide M.Valid, M.Run, M.AllReturn, M.SetItem, Puts, CostAt, Operations.Formula;
    if i == n {
      RunNone(cfg, s, objs, costs, n);
    } else {
      RunFirst(cfg, s, objs, costs, i, n);
      var lost := Operations.SetEffect(cfg, s, objs[i], CostAt(costs, i).value);
      RunKeepsValue(cfg, M.SetItem(cfg, s, objs[i], CostAt(costs, i).value), objs, costs, i + 1, n, k);
    }
  }

  lemma {:induction false} PutStoresFrom(cfg: M.Config, s: M.Cache, objs: seq<Key>, costs: Option<seq<real>>, from: nat, n: nat, i: nat)
    requires M.Valid(cfg, s) && from <= i < n <= |objs|
    requires forall j :: from <= j < n ==> CostAt(costs, j).Some? && !M.TooLarge(cfg, CostAt(costs, j).value)
    requires M.AllReturn(cfg, s, Puts(objs, costs, from, n)) && forall j :: i < j < n ==> objs[j] != objs[i]
    ensures var t := M.Run(cfg, s, Puts(objs, costs, from, n));
      objs[i] in t.data ==> Some(t.data[objs[i]]) == CostAt(costs, i)
    decreases n - from
  {
    hide M.Valid, M.Run, M.AllReturn, M.SetItem, Puts, CostAt, Operations.Formula;
    RunFirst(cfg, s, objs, costs, from, n);
    var v := CostAt(costs, from).value;
    var lost := Operations.SetEffect(cfg, s, objs[from], v);
    var t := M.SetItem(cfg, s, objs[from], v);
    if from < i {
      PutStoresFrom(cfg, t, objs, costs, from + 1, n, i);
    } else {
      RunKeepsValue(cfg, t, objs, costs, from + 1, n, objs[i]);
    }
  }

  /** An entry a put stores, and that is still resident at its end, has the cost given for
      it, or the placeholder if no costs were given. */
  lemma PutStores(cfg: M.Config, s: M.Cache, objs: seq<Key>, costs: Option<seq<real>>, i: nat)
    requires M.Valid(cfg, s) && PutsReturn(cfg, s, objs, costs)
    requires i < Stored(cfg, objs, costs, 0) && forall j :: i < j < |objs| ==> objs[j] != objs[i]
    ensures var t := PutAll(cfg, s, objs, costs);
      && (costs.Some? ==> i < |costs.value|)
      && (objs[i] in t.data ==> t.data[objs[i]] == if costs.Some? then M.Number(costs.value[i]) else M.Other)
  {
    hide M.Valid, M.Run, M.AllReturn, Puts;
    StoredStops(cfg, objs, costs);
    assert CostAt(costs, i).Some?;
    PutStoresFrom(cfg, s, objs, costs, 0, Stored(cfg, objs, costs, 0), i);
  }

  /** When every value fits, a put stores all entries, or as many as there are costs. */
  lemma StoredWhenAllFit(cfg: M.Config, objs: seq<Key>, costs: Option<seq<real>>)
    requires forall v :: cfg.getsizeof(v) <= cfg.maxsize
    ensures Stored(cfg, objs, costs, 0) == if costs.Some? && |costs.value| < |objs| then |costs.value| else |objs|
  {
    StoredStops(cfg, objs, costs);
    var n := Stored(cfg, objs, costs, 0);
    if n < |objs| {
      assert CostAt(costs, n).None?;
    }
    assert costs.Some? ==> CostAt(costs, |costs.value|).None?;
  }
}
