/** The GDSF policy as a state machine on values.

    The lazy heap appears here only as the *set* of entries not yet popped, and
    `Pop` says in one step what the eviction loop does in many: the least live
    entry wins and everything below it is forgotten.  GDSFCache (GdsfCache.dfy)
    is the imperative counterpart, proved equal to these functions.

    Every operation below requires and ensures `Valid`, so `Valid` holds in every
    reachable state. */
module GdsfModel {
  import opened Basics
  import opened Heapq

  /** A cached value: a number is its own cost, anything else (the placeholder
      `True`) costs 1. */
  datatype Value = Number(n: real) | Other

  /** The policy of gdsf.py and the two ablations that override `_push` and
      `popitem`. */
  datatype Variant = Gdsf | CostOnly | NoAging

  /** What `self.popitem()` means on an instance: the class's own method, or the
      wrapper installed by MemoryCacheEviction. */
  datatype PopMode = Plain | Batched(cleanSize: nat)

  datatype Config = Config(maxsize: nat, getsizeof: Value -> nat, variant: Variant, popMode: PopMode)

  /** Ledger of what happened so far; nothing in the policy reads it. */
  datatype History = History(inserted: multiset<Key>, deleted: multiset<Key>, evicted: seq<Key>,
                             calls: seq<seq<Key>>, hits: nat, overwrites: nat, discards: nat)

  datatype Cache = Cache(data: map<Key, Value>, currsize: int, freq: map<Key, nat>, prio: map<Key, real>,
                         heap: set<Entry>, clock: nat, inflation: real, past: History)

  function CostOf(v: Value): (c: real) {
    match v
    case Number(n) => n
    case Other => 1.0
  }

  /** The divisor of the priority: `getsizeof`, with 0 read as 1. */
  function Divisor(cfg: Config, v: Value): (d: nat)
    ensures d >= 1
  {
    if cfg.getsizeof(v) == 0 then 1 else cfg.getsizeof(v)
  }

  function Density(cfg: Config, v: Value): real {
    CostOf(v) / Divisor(cfg, v) as real
  }

  /** What a push adds to the aging value. */
  function Weight(cfg: Config, freq: nat, v: Value): real {
    if cfg.variant == CostOnly then CostOf(v) / Divisor(cfg, v) as real
    else freq as real * CostOf(v) / Divisor(cfg, v) as real
  }

  function Priority(cfg: Config, inflation: real, freq: nat, v: Value): real {
    (if cfg.variant == NoAging then 0.0 else inflation) + Weight(cfg, freq, v)
  }

  lemma DivideUnique(x: real, d: real, q: real)
    requires d > 0.0 && q * d == x
    ensures x / d == q
  {
    var r := x / d;
    assert r * d == x;
    assert (r - q) * d == 0.0;
  }

  lemma QuotientOfProduct(f: real, n: real, d: real)
    requires d > 0.0
    ensures f * n / d == f * (n / d)
  {
    var q := n / d;
    assert q * d == n;
    assert f * q * d == f * n;
    DivideUnique(f * n, d, f * q);
  }

  /** A weight is the frequency, or 1 in the cost-only variant, times the density. */
  lemma WeightIsProduct(cfg: Config, freq: nat, v: Value)
    ensures Weight(cfg, freq, v) == (if cfg.variant == CostOnly then 1.0 else freq as real) * Density(cfg, v)
  {
    QuotientOfProduct(freq as real, CostOf(v), Divisor(cfg, v) as real);
  }

  // ---------- total size ----------

  ghost function Total(size: Value -> nat, data: map<Key, Value>): nat {
    if data == map[] then 0
    else var k :| k in data; size(data[k]) + Total(size, data - {k})
  }

  lemma {:induction false} TotalRemove(size: Value -> nat, data: map<Key, Value>, k: Key)
    requires k in data
    ensures Total(size, data) == size(data[k]) + Total(size, data - {k})
    decreases |data|
  {
    var j :| j in data && Total(size, data) == size(data[j]) + Total(size, data - {j});
    if j != k {
      TotalRemove(size, data - {j}, k);
      TotalRemove(size, data - {k}, j);
      assert data - {j} - {k} == data - {k} - {j};
    }
  }

  lemma TotalUpdate(size: Value -> nat, data: map<Key, Value>, k: Key, v: Value)
    ensures Total(size, data[k := v]) == size(v) + Total(size, data) - (if k in data then size(data[k]) else 0)
  {
    TotalRemove(size, data[k := v], k);
    if k in data {
      TotalRemove(size, data, k);
      assert data[k := v] - {k} == data - {k};
    } else {
      assert data[k := v] - {k} == data;
    }
  }

  // ---------- the invariant ----------

  predicate IsLive(prio: map<Key, real>, e: Entry) {
    e.key in prio && prio[e.key] == e.prio
  }

  ghost function Live(s: Cache): set<Entry> {
    set e | e in s.heap && IsLive(s.prio, e)
  }

  /** Ticks identify heap entries and come from the past. */
  ghost predicate Stamped(heap: set<Entry>, clock: nat) {
    && (forall e :: e in heap ==> e.tick < clock)
    && (forall e, f :: e in heap && f in heap && e.tick == f.tick ==> e == f)
  }

  /** At least one heap entry carries the key's current priority.  There may be
      several: a stale entry comes alive again when the priority returns to it. */
  ghost predicate Represented(heap: set<Entry>, prio: map<Key, real>, k: Key) {
    exists e :: e in heap && e.key == k && IsLive(prio, e)
  }

  ghost predicate AllRepresented(heap: set<Entry>, prio: map<Key, real>) {
    forall k :: k in prio ==> Represented(heap, prio, k)
  }

  ghost predicate Counted(data: map<Key, Value>, freq: map<Key, nat>) {
    freq.Keys == data.Keys && forall k :: k in freq ==> freq[k] >= 1
  }

  ghost predicate Valid(cfg: Config, s: Cache) {
    && Counted(s.data, s.freq)
    && s.prio.Keys == s.data.Keys
    && Stamped(s.heap, s.clock)
    && AllRepresented(s.heap, s.prio)
    && s.currsize == Total(cfg.getsizeof, s.data) <= cfg.maxsize
  }

  lemma ResidentHasFreq(cfg: Config, s: Cache, k: Key)
    requires Valid(cfg, s) && k in s.data
    ensures k in s.freq
  {
  }

  lemma KeysAgree(cfg: Config, s: Cache)
    requires Valid(cfg, s)
    ensures s.prio.Keys == s.freq.Keys == s.data.Keys
  {
  }

  function Empty(): (s: Cache) {
    Cache(map[], 0, map[], map[], {}, 0, 0.0, History(multiset{}, multiset{}, [], [], 0, 0, 0))
  }

  lemma EmptyValid(cfg: Config)
    ensures Valid(cfg, Empty())
  {
  }

  // ---------- eviction ----------

  /** The least entry of a finite set. */
  ghost function Least(es: set<Entry>): (m: Entry)
    requires es != {}
    ensures m in es && forall e :: e in es ==> Leq(m, e)
  {
    var x :| x in es;
    assert forall e :: e in es ==> e == x || e in es - {x};
    if es - {x} == {} then x
    else
      var m := Least(es - {x});
      if Leq(x, m) then x else m
  }

  lemma LeastIsUnique(heap: set<Entry>, clock: nat, es: set<Entry>, m: Entry)
    requires Stamped(heap, clock) && es <= heap && m in es
    requires forall e :: e in es ==> Leq(m, e)
    ensures m == Least(es)
  {
  }

  lemma LiveWhileResident(cfg: Config, s: Cache)
    requires Valid(cfg, s)
    ensures Live(s) == {} <==> s.data == map[]
  {
    if s.data != map[] {
      var k :| k in s.data;
      assert Represented(s.heap, s.prio, k);
      var e :| e in s.heap && e.key == k && IsLive(s.prio, e);
      assert e in Live(s);
    }
  }

  /** The entry `popitem` settles on. */
  ghost function Victim(cfg: Config, s: Cache): (m: Entry)
    requires Valid(cfg, s) && s.data != map[]
    ensures m in s.heap && m.key in s.data && s.prio[m.key] == m.prio
    ensures forall e :: e in Live(s) ==> Leq(m, e)
  {
    LiveWhileResident(cfg, s);
    Least(Live(s))
  }

  ghost function Above(heap: set<Entry>, m: Entry): (r: set<Entry>)
    ensures r <= heap
  {
    set e | e in heap && !Leq(e, m)
  }

  function Forget(cfg: Config, s: Cache, k: Key): (r: Cache)
    requires k in s.data
  {
    s.(data := s.data - {k}, freq := s.freq - {k}, prio := s.prio - {k},
       currsize := s.currsize - cfg.getsizeof(s.data[k]))
  }

  lemma StillRepresented(heap: set<Entry>, prio: map<Key, real>, heap': set<Entry>, prio': map<Key, real>, k: Key)
    requires k in prio && k in prio' && prio'[k] == prio[k] && Represented(heap, prio, k)
    requires forall e :: e in heap && e.key == k && e.prio == prio[k] ==> e in heap'
    ensures Represented(heap', prio', k)
  {
    var e :| e in heap && e.key == k && IsLive(prio, e);
    assert e in heap' && IsLive(prio', e);
  }

  lemma ForgetValid(cfg: Config, s: Cache, k: Key)
    requires Valid(cfg, s) && k in s.data
    ensures Valid(cfg, Forget(cfg, s, k)) && |Forget(cfg, s, k).data| == |s.data| - 1
  {
    hide Represented, Total, Stamped;
    var r := Forget(cfg, s, k);
    TotalRemove(cfg.getsizeof, s.data, k);
    assert r.data.Keys == s.data.Keys - {k};
    forall j | j in r.prio
      ensures Represented(r.heap, r.prio, j)
    {
      StillRepresented(s.heap, s.prio, r.heap, r.prio, j);
    }
  }

  /** `popitem` on a cache with residents: the victim leaves, the aging value
      takes its priority (and is reset in the no-aging variant). */
  ghost function Evict(cfg: Config, s: Cache): (r: Cache)
    requires Valid(cfg, s) && s.data != map[]
    ensures Valid(cfg, r) && |r.data| == |s.data| - 1
  {
    var m := Victim(cfg, s);
    var t := Forget(cfg, s, m.key);
    var r := t.(heap := Above(s.heap, m),
                inflation := if cfg.variant == NoAging then 0.0 else m.prio,
                past := s.past.(evicted := s.past.evicted + [m.key],
                                discards := s.past.discards + Skipped(s.heap, m)));
    EvictValid(cfg, s, m, t, r);
    r
  }

  /** How many stale entries are thrown away before `m` comes up. */
  ghost function Skipped(heap: set<Entry>, m: Entry): nat
    requires m in heap
  {
    |set e | e in heap && Leq(e, m) && e != m|
  }

  lemma EvictValid(cfg: Config, s: Cache, m: Entry, t: Cache, r: Cache)
    requires Valid(cfg, s) && s.data != map[] && m == Victim(cfg, s)
    requires t == Forget(cfg, s, m.key)
    requires r.data == t.data && r.freq == t.freq && r.prio == t.prio && r.currsize == t.currsize
    requires r.clock == t.clock && r.heap == Above(s.heap, m)
    ensures Valid(cfg, r) && |r.data| == |s.data| - 1
  {
    hide Represented, Total, Victim, Live, Least, Above;
    ForgetValid(cfg, s, m.key);
    forall k | k in r.prio
      ensures Represented(r.heap, r.prio, k)
    {
      SurvivorRepresented(cfg, s, m, k);
    }
  }

  lemma SurvivorRepresented(cfg: Config, s: Cache, m: Entry, k: Key)
    requires Valid(cfg, s) && s.data != map[] && m == Victim(cfg, s)
    requires k in s.prio && k != m.key
    ensures Represented(Above(s.heap, m), s.prio - {m.key}, k)
  {
    forall e | e in s.heap && e.key == k && e.prio == s.prio[k]
      ensures e in Above(s.heap, m)
    {
      assert e in Live(s);
      assert e.tick != m.tick;
    }
    StillRepresented(s.heap, s.prio, Above(s.heap, m), s.prio - {m.key}, k);
  }

  /** `popitem` when nothing is resident: the heap is drained and KeyError raised. */
  ghost function Drain(cfg: Config, s: Cache): (r: Cache)
    requires Valid(cfg, s) && s.data == map[]
    ensures Valid(cfg, r)
  {
    s.(heap := {}, past := s.past.(discards := s.past.discards + |s.heap|))
  }

  ghost function Pop(cfg: Config, s: Cache): (r: Cache)
    requires Valid(cfg, s)
    ensures Valid(cfg, r)
  {
    if s.data == map[] then Drain(cfg, s) else Evict(cfg, s)
  }

  /** `func()` repeated `n` times, or until it raises KeyError. */
  ghost function PopMany(cfg: Config, s: Cache, n: nat): (r: Cache)
    requires Valid(cfg, s)
    ensures Valid(cfg, r)
    decreases n
  {
    if n == 0 then s
    else if s.data == map[] then Drain(cfg, s)
    else PopMany(cfg, Evict(cfg, s), n - 1)
  }

  lemma {:induction false} PopManySize(cfg: Config, s: Cache, n: nat)
    requires Valid(cfg, s)
    ensures |PopMany(cfg, s, n).data| == if n <= |s.data| then |s.data| - n else 0
    decreases n
  {
    hide Evict, Valid;
    if n == 0 {
    } else if s.data == map[] {
      assert Drain(cfg, s).data == s.data;
    } else {
      var t := Evict(cfg, s);
      assert PopMany(cfg, s, n) == PopMany(cfg, t, n - 1);
      PopManySize(cfg, t, n - 1);
    }
  }

  /** The keys of the first `n` victims. */
  ghost function Victims(cfg: Config, s: Cache, n: nat): (ks: seq<Key>)
    requires Valid(cfg, s) && n <= |s.data|
    ensures |ks| == n
    decreases n
  {
    if n == 0 then []
    else [Victim(cfg, s).key] + Victims(cfg, Evict(cfg, s), n - 1)
  }

  /** The wrapper: pop up to `n` entries, then hand their keys to `on_evict`.  If a
      KeyError interrupts the comprehension, the list built so far is lost. */
  ghost function PopBatch(cfg: Config, s: Cache, n: nat): (r: Cache)
    requires Valid(cfg, s)
    ensures Valid(cfg, r) && |r.data| <= |s.data|
    ensures n >= 1 && s.data != map[] ==> |r.data| < |s.data|
  {
    var keys := if n <= |s.data| then Victims(cfg, s, n) else [];
    var t := PopMany(cfg, s, n);
    PopManySize(cfg, s, n);
    t.(past := t.past.(calls := t.past.calls + [keys]))
  }

  /** `self.popitem()` as the instance sees it. */
  ghost function Popitem(cfg: Config, s: Cache): (r: Cache)
    requires Valid(cfg, s)
    ensures Valid(cfg, r) && |r.data| <= |s.data|
    ensures Progressive(cfg) && s.data != map[] ==> |r.data| < |s.data|
  {
    match cfg.popMode
    case Plain => Pop(cfg, s)
    case Batched(n) => PopBatch(cfg, s, n)
  }

  /** A clean size of 0 makes the wrapper do nothing, and the overflow loop spin. */
  predicate Progressive(cfg: Config) {
    cfg.popMode.Batched? ==> cfg.popMode.cleanSize >= 1
  }

  // ---------- the dictionary operations ----------

  /** The overflow loop of `cachetools.Cache.__setitem__`. */
  ghost function MakeRoom(cfg: Config, s: Cache, size: nat): (r: Cache)
    requires Valid(cfg, s) && size <= cfg.maxsize
    requires Progressive(cfg) || s.currsize + size <= cfg.maxsize
    ensures Valid(cfg, r) && r.currsize + size <= cfg.maxsize && |r.data| <= |s.data|
    decreases |s.data|
  {
    if s.currsize + size > cfg.maxsize then MakeRoom(cfg, Popitem(cfg, s), size) else s
  }

  function Push(cfg: Config, s: Cache, k: Key, v: Value): (r: Cache)
    requires k in s.freq
  {
    var p := Priority(cfg, s.inflation, s.freq[k], v);
    s.(prio := s.prio[k := p], heap := s.heap + {Entry(p, s.clock, k)}, clock := s.clock + 1)
  }

  lemma PushRepresents(cfg: Config, s: Cache, k: Key, v: Value)
    requires k in s.freq && Stamped(s.heap, s.clock)
    requires forall j :: j in s.prio && j != k ==> Represented(s.heap, s.prio, j)
    ensures Stamped(Push(cfg, s, k, v).heap, s.clock + 1)
    ensures AllRepresented(Push(cfg, s, k, v).heap, Push(cfg, s, k, v).prio)
  {
    var r := Push(cfg, s, k, v);
    forall j | j in r.prio
      ensures Represented(r.heap, r.prio, j)
    {
      if j == k {
        var e := Entry(r.prio[k], s.clock, k);
        assert e in r.heap && IsLive(r.prio, e);
      } else {
        StillRepresented(s.heap, s.prio, r.heap, r.prio, j);
      }
    }
  }

  /** The value goes into the base dictionary and the key gets a frequency. */
  function Store(cfg: Config, s: Cache, k: Key, v: Value): (r: Cache) {
    s.(data := s.data[k := v],
       currsize := s.currsize + cfg.getsizeof(v) - (if k in s.data then cfg.getsizeof(s.data[k]) else 0),
       freq := if k in s.freq then s.freq else s.freq[k := 1],
       past := if k in s.data then s.past.(overwrites := s.past.overwrites + 1)
               else s.past.(inserted := s.past.inserted + multiset{k}))
  }

  predicate TooLarge(cfg: Config, v: Value) {
    cfg.getsizeof(v) > cfg.maxsize
  }

  /** The insertion enters the overflow loop. */
  predicate Overflows(cfg: Config, s: Cache, k: Key, v: Value) {
    && !TooLarge(cfg, v)
    && (k !in s.data || cfg.getsizeof(s.data[k]) < cfg.getsizeof(v))
    && s.currsize + cfg.getsizeof(v) > cfg.maxsize
  }

  /** The insertion comes to an end: it does not spin in a loop that cannot progress. */
  predicate Returns(cfg: Config, s: Cache, k: Key, v: Value) {
    Progressive(cfg) || !Overflows(cfg, s, k, v)
  }

  /** The base class makes room when the key is new or its value grows. */
  ghost function Room(cfg: Config, s: Cache, k: Key, v: Value): (r: Cache)
    requires Valid(cfg, s) && Returns(cfg, s, k, v) && !TooLarge(cfg, v)
    ensures Valid(cfg, r)
    ensures k !in r.data ==> r.currsize + cfg.getsizeof(v) <= cfg.maxsize
    ensures k in r.data ==> r.currsize + cfg.getsizeof(v) - cfg.getsizeof(r.data[k]) <= cfg.maxsize
  {
    if k !in s.data || cfg.getsizeof(s.data[k]) < cfg.getsizeof(v)
    then MakeRoom(cfg, s, cfg.getsizeof(v))
    else s
  }

  /** `__setitem__`: room, store, then push, so the priority uses the aging value
      left by this very insertion's evictions.  A value over `maxsize` raises
      ValueError before anything changes. */
  ghost function SetItem(cfg: Config, s: Cache, k: Key, v: Value): (r: Cache)
    requires Valid(cfg, s) && Returns(cfg, s, k, v)
    ensures Valid(cfg, r)
    ensures !TooLarge(cfg, v) ==> k in r.data && r.data[k] == v
  {
    if TooLarge(cfg, v) then s
    else
      var room := Room(cfg, s, k, v);
      StorePushValid(cfg, room, k, v);
      Push(cfg, Store(cfg, room, k, v), k, v)
  }

  lemma StorePushValid(cfg: Config, s: Cache, k: Key, v: Value)
    requires Valid(cfg, s)
    requires s.currsize + cfg.getsizeof(v) - (if k in s.data then cfg.getsizeof(s.data[k]) else 0) <= cfg.maxsize
    ensures Valid(cfg, Push(cfg, Store(cfg, s, k, v), k, v))
  {
    hide Represented, Total, Stamped;
    var t := Store(cfg, s, k, v);
    TotalUpdate(cfg.getsizeof, s.data, k, v);
    PushRepresents(cfg, t, k, v);
  }

  /** `__getitem__`: a hit raises the frequency and pushes again; a miss raises
      KeyError and changes nothing. */
  function GetItem(cfg: Config, s: Cache, k: Key): (r: Cache)
    requires Valid(cfg, s)
    ensures Valid(cfg, r) && r.data == s.data
  {
    if k in s.data then
      TouchPushValid(cfg, s, k);
      Push(cfg, Touch(s, k), k, s.data[k])
    else s
  }

  lemma TouchPushValid(cfg: Config, s: Cache, k: Key)
    requires Valid(cfg, s) && k in s.data
    ensures Valid(cfg, Push(cfg, Touch(s, k), k, s.data[k]))
  {
    hide Represented, Total, Stamped;
    PushRepresents(cfg, Touch(s, k), k, s.data[k]);
  }

  function Touch(s: Cache, k: Key): (r: Cache)
    requires k in s.freq
  {
    s.(freq := s.freq[k := s.freq[k] + 1], past := s.past.(hits := s.past.hits + 1))
  }

  /** `__delitem__`: heap entries stay behind as stale ones. */
  function DelItem(cfg: Config, s: Cache, k: Key): (r: Cache)
    requires Valid(cfg, s)
    ensures Valid(cfg, r) && k !in r.data
  {
    if k in s.data then
      ForgetValid(cfg, s, k);
      Forget(cfg, s, k).(past := s.past.(deleted := s.past.deleted + multiset{k}))
    else s
  }

  // ---------- runs ----------

  datatype Op = Set(k: Key, v: Value) | Get(k: Key) | Del(k: Key) | PopOp

  predicate OpReturns(cfg: Config, s: Cache, op: Op) {
    op.Set? ==> Returns(cfg, s, op.k, op.v)
  }

  ghost function Step(cfg: Config, s: Cache, op: Op): (r: Cache)
    requires Valid(cfg, s) && OpReturns(cfg, s, op)
    ensures Valid(cfg, r)
  {
    match op
    case Set(k, v) => SetItem(cfg, s, k, v)
    case Get(k) => GetItem(cfg, s, k)
    case Del(k) => DelItem(cfg, s, k)
    case PopOp => Popitem(cfg, s)
  }

  /** Every operation of the run returns, as all do when the clean size is positive. */
  ghost predicate AllReturn(cfg: Config, s: Cache, ops: seq<Op>)
    requires Valid(cfg, s)
    decreases |ops|
  {
    Progressive(cfg) ||
    (|ops| > 0 ==> OpReturns(cfg, s, ops[0]) && AllReturn(cfg, Step(cfg, s, ops[0]), ops[1..]))
  }

  ghost function Run(cfg: Config, s: Cache, ops: seq<Op>): (r: Cache)
    requires Valid(cfg, s) && AllReturn(cfg, s, ops)
    ensures Valid(cfg, r)
    decreases |ops|
  {
    if |ops| == 0 then s else Run(cfg, Step(cfg, s, ops[0]), ops[1..])
  }

  /** The state a run from the empty cache reaches. */
  ghost function Reached(cfg: Config, ops: seq<Op>): (r: Cache)
    requires Progressive(cfg)
    ensures Valid(cfg, r)
  {
    EmptyValid(cfg);
    Run(cfg, Empty(), ops)
  }
}
