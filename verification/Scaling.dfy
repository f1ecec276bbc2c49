/** The unit of cost does not matter: two runs whose costs differ by a factor evict
    the same keys in the same order. */
module Scaling {
  import opened Basics
  import opened Heapq
  import opened GdsfModel

  function Times(f: real, x: real): real {
    f * x
  }

  function ScaleValue(v: Value, f: real): Value {
    Number(Times(f, CostOf(v)))
  }

  function ScaleEntry(e: Entry, f: real): Entry {
    Entry(Times(f, e.prio), e.tick, e.key)
  }

  function ScaleOp(op: Op, f: real): Op {
    match op
    case Set(k, v) => Set(k, ScaleValue(v, f))
    case _ => op
  }

  function ScaleOps(ops: seq<Op>, f: real): (r: seq<Op>)
    ensures |r| == |ops|
  {
    seq(|ops|, i requires 0 <= i < |ops| => ScaleOp(ops[i], f))
  }

  /** The same cache with every cost, every priority and the aging value multiplied by `f`. */
  ghost function Scale(s: Cache, f: real): Cache {
    s.(data := map k | k in s.data :: ScaleValue(s.data[k], f),
       prio := map k | k in s.prio :: Times(f, s.prio[k]),
       heap := set e | e in s.heap :: ScaleEntry(e, f),
       inflation := Times(f, s.inflation))
  }

  /** Sizes do not depend on the cost. */
  ghost predicate SizeBlind(cfg: Config, f: real) {
    forall v :: cfg.getsizeof(ScaleValue(v, f)) == cfg.getsizeof(v)
  }

  lemma ScaleCancels(a: real, b: real, f: real)
    requires f > 0.0
    ensures Times(f, a) == Times(f, b) <==> a == b
    ensures Times(f, a) < Times(f, b) <==> a < b
  {
    assert f * a - f * b == f * (a - b);
    if a < b { assert f * (b - a) > 0.0; }
    if a > b { assert f * (a - b) > 0.0; }
  }

  lemma ScaledHeap(s: Cache, f: real, e: Entry)
    requires f > 0.0
    ensures ScaleEntry(e, f) in Scale(s, f).heap <==> e in s.heap
  {
    if ScaleEntry(e, f) in Scale(s, f).heap {
      var d :| d in s.heap && ScaleEntry(d, f) == ScaleEntry(e, f);
      ScaleCancels(d.prio, e.prio, f);
      assert d == e;
    }
  }

  lemma ScaledOrder(a: Entry, b: Entry, f: real)
    requires f > 0.0
    ensures Leq(ScaleEntry(a, f), ScaleEntry(b, f)) <==> Leq(a, b)
  {
    ScaleCancels(a.prio, b.prio, f);
  }

  lemma ScaledLive(s: Cache, f: real, e: Entry)
    requires f > 0.0
    ensures IsLive(Scale(s, f).prio, ScaleEntry(e, f)) <==> IsLive(s.prio, e)
  {
    if e.key in s.prio {
      ScaleCancels(s.prio[e.key], e.prio, f);
    }
  }

  lemma {:induction false} ScaledTotal(cfg: Config, data: map<Key, Value>, data': map<Key, Value>, f: real)
    requires SizeBlind(cfg, f) && data'.Keys == data.Keys
    requires forall k :: k in data ==> data'[k] == ScaleValue(data[k], f)
    ensures Total(cfg.getsizeof, data') == Total(cfg.getsizeof, data)
    decreases |data|
  {
    if data != map[] {
      var k :| k in data && Total(cfg.getsizeof, data) == cfg.getsizeof(data[k]) + Total(cfg.getsizeof, data - {k});
      TotalRemove(cfg.getsizeof, data', k);
      assert (data - {k}).Keys == data.Keys - {k} == (data' - {k}).Keys;
      ScaledTotal(cfg, data - {k}, data' - {k}, f);
    } else {
      assert data' == map[];
    }
  }

  lemma ScaledValid(cfg: Config, s: Cache, f: real)
    requires Valid(cfg, s) && f > 0.0 && SizeBlind(cfg, f)
    ensures Valid(cfg, Scale(s, f))
  {
    var t := Scale(s, f);
    ScaledTotal(cfg, s.data, t.data, f);
    assert t.data.Keys == s.data.Keys && t.prio.Keys == s.prio.Keys;
    forall k | k in t.prio
      ensures Represented(t.heap, t.prio, k)
    {
      assert Represented(s.heap, s.prio, k);
      var e :| e in s.heap && e.key == k && IsLive(s.prio, e);
      ScaledLive(s, f, e);
      assert ScaleEntry(e, f) in t.heap;
    }
  }

  lemma ScaledVictim(cfg: Config, s: Cache, f: real)
    requires Valid(cfg, s) && s.data != map[] && f > 0.0 && SizeBlind(cfg, f)
    ensures Valid(cfg, Scale(s, f)) && Scale(s, f).data != map[]
    ensures Victim(cfg, Scale(s, f)) == ScaleEntry(Victim(cfg, s), f)
  {
    hide Valid, Times, Least, Scale, Live;
    ScaledValid(cfg, s, f);
    SameSize(s, f);
    VictimIsLeastLive(cfg, s);
    var t, m := Scale(s, f), Victim(cfg, s);
    ScaledLiveSet(s, f);
    forall d | d in Live(t)
      ensures Leq(ScaleEntry(m, f), d)
    {
      var e :| e in Live(s) && ScaleEntry(e, f) == d;
      ScaledOrder(m, e, f);
    }
    VictimIsUnique(cfg, t, ScaleEntry(m, f));
  }

  lemma ScaledLiveSet(s: Cache, f: real)
    requires f > 0.0
    ensures Live(Scale(s, f)) == set e | e in Live(s) :: ScaleEntry(e, f)
  {
    hide Times;
    forall e | e in s.heap
      ensures ScaleEntry(e, f) in Live(Scale(s, f)) <==> e in Live(s)
    {
      ScaledLive(s, f, e);
    }
  }

  lemma VictimIsLeastLive(cfg: Config, s: Cache)
    requires Valid(cfg, s) && s.data != map[]
    ensures Victim(cfg, s) in Live(s) && forall e :: e in Live(s) ==> Leq(Victim(cfg, s), e)
  {
  }

  lemma VictimIsUnique(cfg: Config, s: Cache, m: Entry)
    requires Valid(cfg, s) && s.data != map[]
    requires m in Live(s) && forall e :: e in Live(s) ==> Leq(m, e)
    ensures m == Victim(cfg, s)
  {
    LiveWhileResident(cfg, s);
    LeastIsUnique(s.heap, s.clock, Live(s), m);
  }

  lemma ScaledAbove(s: Cache, m: Entry, f: real)
    requires f > 0.0 && m in s.heap
    ensures Above(Scale(s, f).heap, ScaleEntry(m, f)) == set e | e in Above(s.heap, m) :: ScaleEntry(e, f)
    ensures Skipped(s.heap, m) == Skipped(Scale(s, f).heap, (ScaledHeap(s, f, m); ScaleEntry(m, f)))
  {
    ScaledHeap(s, f, m);
    var t := Scale(s, f);
    forall e | e in s.heap
      ensures Leq(ScaleEntry(e, f), ScaleEntry(m, f)) <==> Leq(e, m)
      ensures ScaleEntry(e, f) == ScaleEntry(m, f) <==> e == m
    {
      ScaledOrder(e, m, f);
      ScaleCancels(e.prio, m.prio, f);
    }
    var a := set e | e in s.heap && Leq(e, m) && e != m;
    var b := set e | e in t.heap && Leq(e, ScaleEntry(m, f)) && e != ScaleEntry(m, f);
    assert b == set e | e in a :: ScaleEntry(e, f);
    ScaledSize(a, b, f);
  }

  lemma {:induction false} ScaledSize(a: set<Entry>, b: set<Entry>, f: real)
    requires f > 0.0 && b == set e | e in a :: ScaleEntry(e, f)
    ensures |b| == |a|
    decreases |a|
  {
    if a != {} {
      var e :| e in a;
      var d := ScaleEntry(e, f);
      forall x | x in a - {e}
        ensures ScaleEntry(x, f) != d
      {
        ScaleCancels(x.prio, e.prio, f);
      }
      assert b - {d} == set x | x in a - {e} :: ScaleEntry(x, f);
      ScaledSize(a - {e}, b - {d}, f);
    }
  }

  lemma EvictScales(cfg: Config, s: Cache, f: real)
    requires Valid(cfg, s) && s.data != map[] && f > 0.0 && SizeBlind(cfg, f)
    ensures Valid(cfg, Scale(s, f)) && Scale(s, f).data != map[]
    ensures Evict(cfg, Scale(s, f)) == Scale(Evict(cfg, s), f)
  {
    hide Valid, Victim, Above, Skipped, Times, Forget;
    ScaledVictim(cfg, s, f);
    var m := Victim(cfg, s);
    ScaledAbove(s, m, f);
    ForgetScales(cfg, s, m.key, f);
    TakeScales(cfg, Forget(cfg, s, m.key), s, m, f);
  }

  lemma TakeScales(cfg: Config, u: Cache, s: Cache, m: Entry, f: real)
    requires f > 0.0 && m in s.heap && u.past == s.past
    requires ScaleEntry(m, f) in Scale(s, f).heap
    requires Above(Scale(s, f).heap, ScaleEntry(m, f)) == set e | e in Above(s.heap, m) :: ScaleEntry(e, f)
    requires Skipped(s.heap, m) == Skipped(Scale(s, f).heap, ScaleEntry(m, f))
    ensures Taken(cfg, Scale(u, f), Scale(s, f), ScaleEntry(m, f)) == Scale(Taken(cfg, u, s, m), f)
  {
    hide Above, Skipped;
  }

  /** The last step of an eviction, `u` being `s` without the victim. */
  ghost function Taken(cfg: Config, u: Cache, s: Cache, m: Entry): Cache
    requires m in s.heap
  {
    u.(heap := Above(s.heap, m),
       inflation := if cfg.variant == NoAging then 0.0 else m.prio,
       past := s.past.(evicted := s.past.evicted + [m.key], discards := s.past.discards + Skipped(s.heap, m)))
  }

  lemma ForgetScales(cfg: Config, s: Cache, k: Key, f: real)
    requires k in s.data && SizeBlind(cfg, f)
    ensures Forget(cfg, s, k).past == s.past
    ensures k in Scale(s, f).data && Forget(cfg, Scale(s, f), k) == Scale(Forget(cfg, s, k), f)
  {
    hide Times;
    var a, b := Forget(cfg, Scale(s, f), k), Scale(Forget(cfg, s, k), f);
    assert a.data == b.data && a.prio == b.prio;
  }

  lemma WeightScales(cfg: Config, freq: nat, v: Value, f: real)
    requires SizeBlind(cfg, f)
    ensures Weight(cfg, freq, ScaleValue(v, f)) == Times(f, Weight(cfg, freq, v))
  {
    hide Weight, Times, Density, ScaleValue;
    DensityScales(cfg, v, f);
    WeightTimes(cfg, freq, v);
    WeightTimes(cfg, freq, ScaleValue(v, f));
    TimesCommutes(CountedFreq(cfg, freq), f, Density(cfg, v));
  }

  /** The frequency as far as the variant takes it into account. */
  function CountedFreq(cfg: Config, freq: nat): real {
    if cfg.variant == CostOnly then 1.0 else freq as real
  }

  lemma WeightTimes(cfg: Config, freq: nat, v: Value)
    ensures Weight(cfg, freq, v) == Times(CountedFreq(cfg, freq), Density(cfg, v))
  {
    hide Weight, Density;
    WeightIsProduct(cfg, freq, v);
  }

  lemma DensityScales(cfg: Config, v: Value, f: real)
    requires SizeBlind(cfg, f)
    ensures Density(cfg, ScaleValue(v, f)) == Times(f, Density(cfg, v))
  {
    QuotientOfProduct(f, CostOf(v), Divisor(cfg, v) as real);
  }

  lemma TimesCommutes(n: real, f: real, x: real)
    ensures Times(n, Times(f, x)) == Times(f, Times(n, x))
  {
    assert n * (f * x) == f * (n * x);
  }

  lemma PriorityScales(cfg: Config, inflation: real, freq: nat, v: Value, f: real)
    requires SizeBlind(cfg, f)
    ensures Priority(cfg, Times(f, inflation), freq, ScaleValue(v, f)) == Times(f, Priority(cfg, inflation, freq, v))
  {
    hide Weight;
    WeightScales(cfg, freq, v, f);
  }

  lemma PushScales(cfg: Config, s: Cache, k: Key, v: Value, f: real)
    requires k in s.freq && f > 0.0 && SizeBlind(cfg, f)
    ensures Push(cfg, Scale(s, f), k, ScaleValue(v, f)) == Scale(Push(cfg, s, k, v), f)
  {
    hide Times, Priority, Weight;
    PriorityScales(cfg, s.inflation, s.freq[k], v, f);
    var p := Priority(cfg, s.inflation, s.freq[k], v);
    var a, b := Push(cfg, Scale(s, f), k, ScaleValue(v, f)), Scale(Push(cfg, s, k, v), f);
    assert a.prio == b.prio;
    assert b.heap == Scale(s, f).heap + {ScaleEntry(Entry(p, s.clock, k), f)};
  }

  lemma StoreScales(cfg: Config, s: Cache, k: Key, v: Value, f: real)
    requires SizeBlind(cfg, f)
    ensures Store(cfg, Scale(s, f), k, ScaleValue(v, f)) == Scale(Store(cfg, s, k, v), f)
  {
    hide Times;
    var a, b := Store(cfg, Scale(s, f), k, ScaleValue(v, f)), Scale(Store(cfg, s, k, v), f);
    assert a.data == b.data;
  }

  lemma DrainScales(cfg: Config, s: Cache, f: real)
    requires Valid(cfg, s) && s.data == map[] && f > 0.0
    requires Valid(cfg, Scale(s, f))
    ensures Scale(s, f).data == map[]
    ensures Drain(cfg, Scale(s, f)) == Scale(Drain(cfg, s), f)
  {
    ScaledSize(s.heap, Scale(s, f).heap, f);
  }

  lemma SameSize(s: Cache, f: real)
    ensures Scale(s, f).data.Keys == s.data.Keys && |Scale(s, f).data| == |s.data|
    ensures Scale(s, f).data == map[] <==> s.data == map[]
  {
    var t := Scale(s, f);
    assert t.data.Keys == s.data.Keys;
    if s.data != map[] {
      var k :| k in s.data;
      assert k in t.data;
    }
  }

  lemma {:induction false} PopManyScales(cfg: Config, s: Cache, n: nat, f: real)
    requires Valid(cfg, s) && f > 0.0 && SizeBlind(cfg, f)
    ensures Valid(cfg, Scale(s, f)) && PopMany(cfg, Scale(s, f), n) == Scale(PopMany(cfg, s, n), f)
    ensures n <= |s.data| ==> n <= |Scale(s, f).data| && Victims(cfg, Scale(s, f), n) == Victims(cfg, s, n)
    decreases n
  {
    hide Valid, Evict, Drain, Scale, Victim;
    ScaledValid(cfg, s, f);
    SameSize(s, f);
    if n == 0 {
    } else if s.data == map[] {
      DrainScales(cfg, s, f);
    } else {
      EvictScales(cfg, s, f);
      ScaledVictim(cfg, s, f);
      PopManyScales(cfg, Evict(cfg, s), n - 1, f);
    }
  }

  lemma PopitemScales(cfg: Config, s: Cache, f: real)
    requires Valid(cfg, s) && f > 0.0 && SizeBlind(cfg, f)
    ensures Valid(cfg, Scale(s, f)) && Popitem(cfg, Scale(s, f)) == Scale(Popitem(cfg, s), f)
  {
    hide Valid, Evict, Drain, PopMany, Victims, Victim;
    ScaledValid(cfg, s, f);
    SameSize(s, f);
    match cfg.popMode
    case Plain =>
      if s.data == map[] { DrainScales(cfg, s, f); } else { EvictScales(cfg, s, f); }
    case Batched(n) =>
      PopManyScales(cfg, s, n, f);
  }

  lemma {:induction false} MakeRoomScales(cfg: Config, s: Cache, size: nat, f: real)
    requires Valid(cfg, s) && Progressive(cfg) && size <= cfg.maxsize && f > 0.0 && SizeBlind(cfg, f)
    ensures Valid(cfg, Scale(s, f)) && MakeRoom(cfg, Scale(s, f), size) == Scale(MakeRoom(cfg, s, size), f)
    decreases |s.data|
  {
    hide Valid, Popitem;
    ScaledValid(cfg, s, f);
    if s.currsize + size > cfg.maxsize {
      RoomEnds(cfg, s, size);
      PopitemScales(cfg, s, f);
      MakeRoomScales(cfg, Popitem(cfg, s), size, f);
    }
  }

  lemma RoomEnds(cfg: Config, s: Cache, size: nat)
    requires Valid(cfg, s) && size <= cfg.maxsize < s.currsize + size
    ensures s.data != map[]
  {
  }

  lemma SetScales(cfg: Config, s: Cache, k: Key, v: Value, f: real)
    requires Valid(cfg, s) && Progressive(cfg) && f > 0.0 && SizeBlind(cfg, f)
    ensures Valid(cfg, Scale(s, f))
    ensures SetItem(cfg, Scale(s, f), k, ScaleValue(v, f)) == Scale(SetItem(cfg, s, k, v), f)
  {
    hide Valid, MakeRoom, Push, Times;
    ScaledValid(cfg, s, f);
    if !TooLarge(cfg, v) {
      MakeRoomScales(cfg, s, cfg.getsizeof(v), f);
      var room := Room(cfg, s, k, v);
      assert Room(cfg, Scale(s, f), k, ScaleValue(v, f)) == Scale(room, f);
      StoreScales(cfg, room, k, v, f);
      PushScales(cfg, Store(cfg, room, k, v), k, v, f);
    }
  }

  lemma GetScales(cfg: Config, s: Cache, k: Key, f: real)
    requires Valid(cfg, s) && f > 0.0 && SizeBlind(cfg, f)
    ensures Valid(cfg, Scale(s, f)) && GetItem(cfg, Scale(s, f), k) == Scale(GetItem(cfg, s, k), f)
  {
    hide Valid, Push;
    ScaledValid(cfg, s, f);
    if k in s.data {
      ResidentHasFreq(cfg, s, k);
      PushScales(cfg, Touch(s, k), k, s.data[k], f);
      assert Scale(Touch(s, k), f) == Touch(Scale(s, f), k);
    }
  }

  lemma DelScales(cfg: Config, s: Cache, k: Key, f: real)
    requires Valid(cfg, s) && f > 0.0 && SizeBlind(cfg, f)
    ensures Valid(cfg, Scale(s, f)) && DelItem(cfg, Scale(s, f), k) == Scale(DelItem(cfg, s, k), f)
  {
    hide Valid;
    ScaledValid(cfg, s, f);
    if k in s.data {
      ForgetScales(cfg, s, k, f);
    }
  }

  lemma StepScales(cfg: Config, s: Cache, op: Op, f: real)
    requires Valid(cfg, s) && Progressive(cfg) && f > 0.0 && SizeBlind(cfg, f)
    ensures Valid(cfg, Scale(s, f)) && Step(cfg, Scale(s, f), ScaleOp(op, f)) == Scale(Step(cfg, s, op), f)
  {
    hide Valid, SetItem, GetItem, DelItem, Popitem, Scale;
    match op
    case Set(k, v) => SetScales(cfg, s, k, v, f);
    case Get(k) => GetScales(cfg, s, k, f);
    case Del(k) => DelScales(cfg, s, k, f);
    case PopOp => PopitemScales(cfg, s, f);
  }

  /** Multiplying every cost of a run by `f > 0` multiplies the aging value and all
      priorities by `f` and changes nothing else: same residents, frequencies and heap
      order, and the same victims and `on_evict` calls in the same order, ties included. */
  lemma {:induction false} RunScales(cfg: Config, s: Cache, ops: seq<Op>, f: real)
    requires Valid(cfg, s) && Progressive(cfg) && f > 0.0 && SizeBlind(cfg, f)
    ensures Valid(cfg, Scale(s, f))
    ensures Run(cfg, Scale(s, f), ScaleOps(ops, f)) == Scale(Run(cfg, s, ops), f)
    ensures Run(cfg, Scale(s, f), ScaleOps(ops, f)).past == Run(cfg, s, ops).past
    decreases |ops|
  {
    hide Valid, Step;
    ScaledValid(cfg, s, f);
    if |ops| != 0 {
      StepScales(cfg, s, ops[0], f);
      RunScales(cfg, Step(cfg, s, ops[0]), ops[1..], f);
      assert ScaleOps(ops, f)[1..] == ScaleOps(ops[1..], f);
    }
  }
}
