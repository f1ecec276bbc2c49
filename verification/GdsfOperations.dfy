/** What each operation leaves behind, part by part, in terms of costs, sizes, frequencies
    and the aging value, and which residents it prefers. */
module GdsfOperations {
  import opened Basics
  import opened Heapq
  import opened GdsfModel
  import opened GdsfPaths
  import Aging
  import Eviction
  import Frequency
  import Inflation

  /** A number costs itself, a placeholder 1. */
  function Cost(v: Value): real {
    if v.Number? then v.n else 1.0
  }

  function Size(cfg: Config, v: Value): (n: nat)
    ensures n >= 1
  {
    if cfg.getsizeof(v) > 0 then cfg.getsizeof(v) else 1
  }

  /** The documented priority: L + frequency * cost / size, without the frequency or without L
      in the ablations. */
  predicate Formula(cfg: Config, prio: real, l: real, freq: nat, v: Value) {
    match cfg.variant
    case Gdsf => prio == l + freq as real * Cost(v) / Size(cfg, v) as real
    case CostOnly => prio == l + Cost(v) / Size(cfg, v) as real
    case NoAging => prio == freq as real * Cost(v) / Size(cfg, v) as real
  }

  // ---------- one push ----------

  /** `heap'` has one entry more, newer than all others. */
  ghost predicate NewestAdded(heap: set<Entry>, heap': set<Entry>, k: Key, prio: real) {
    exists e: Entry :: e.key == k && e.prio == prio && heap' == heap + {e} && Newest(heap, e)
  }

  ghost predicate Newest(heap: set<Entry>, e: Entry) {
    forall d :: d in heap ==> d.tick < e.tick
  }

  lemma PushEffect(cfg: Config, s: Cache, k: Key, v: Value)
    requires k in s.freq && Stamped(s.heap, s.clock)
    ensures var t := Push(cfg, s, k, v);
      && t == s.(prio := t.prio, heap := t.heap, clock := t.clock)
      && k in t.prio && t.prio == s.prio[k := t.prio[k]]
      && Formula(cfg, t.prio[k], s.inflation, s.freq[k], v)
      && NewestAdded(s.heap, t.heap, k, t.prio[k])
  {
    hide Priority, Formula;
    var t := Push(cfg, s, k, v);
    PriorityIsFormula(cfg, s.inflation, s.freq[k], v);
    var e := Entry(t.prio[k], s.clock, k);
    assert t.heap == s.heap + {e} && Newest(s.heap, e);
  }

  lemma PriorityIsFormula(cfg: Config, l: real, freq: nat, v: Value)
    ensures Formula(cfg, Priority(cfg, l, freq, v), l, freq, v)
  {
    assert CostOf(v) == Cost(v) && Divisor(cfg, v) == Size(cfg, v);
  }

  lemma StampsOf(cfg: Config, s: Cache)
    requires Valid(cfg, s)
    ensures Stamped(s.heap, s.clock)
  {
  }

  // ---------- reads and deletions ----------

  /** A hit raises the frequency by one, prices the key anew at the present aging value, and
      changes nothing about any other key; a miss changes nothing at all. */
  lemma ReadEffect(cfg: Config, s: Cache, k: Key)
    requires Valid(cfg, s)
    ensures k !in s.data ==> GetItem(cfg, s, k) == s
    ensures k in s.data ==> var t := GetItem(cfg, s, k);
      && k in s.freq && k in t.prio
      && t.data == s.data && t.inflation == s.inflation && t.currsize == s.currsize
      && t.freq == s.freq[k := s.freq[k] + 1] && t.prio == s.prio[k := t.prio[k]]
      && Formula(cfg, t.prio[k], s.inflation, s.freq[k] + 1, s.data[k])
      && NewestAdded(s.heap, t.heap, k, t.prio[k])
  {
    hide Push, Valid, NewestAdded, Formula, Stamped;
    if k in s.data {
      KeysAgree(cfg, s);
      StampsOf(cfg, s);
      PushEffect(cfg, Touch(s, k), k, s.data[k]);
    }
  }

  /** A deletion takes the one key out of every map and leaves the heap and the aging value. */
  lemma DeletionEffect(cfg: Config, s: Cache, k: Key)
    requires Valid(cfg, s)
    ensures var t := DelItem(cfg, s, k);
      && t.data == s.data - {k} && t.freq == s.freq - {k} && t.prio == s.prio - {k}
      && t.heap == s.heap && t.clock == s.clock && t.inflation == s.inflation && t.past.evicted == s.past.evicted
  {
    KeysAgree(cfg, s);
    hide Valid;
    if k !in s.data {
      assert s.data - {k} == s.data && s.freq - {k} == s.freq && s.prio - {k} == s.prio;
    }
  }

  // ---------- sets ----------

  /** What is resident in `t` is as it was in `s`, and `lost` is gone. */
  ghost predicate Shrunk(s: Cache, t: Cache, lost: seq<Key>) {
    && t.past.evicted == s.past.evicted + lost
    && t.data.Keys == s.data.Keys - Members(lost)
    && (forall j :: j in t.data ==> SameAt(s, t, j))
  }

  lemma ShrunkByEviction(cfg: Config, s: Cache)
    requires Valid(cfg, s) && s.data != map[]
    ensures Shrunk(s, Evict(cfg, s), [Victim(cfg, s).key])
  {
    hide Valid, Evict, Victim;
    KeysAgree(cfg, s);
    Eviction.EvictTakesVictim(cfg, s);
  }

  lemma ShrunkOnce(cfg: Config, s: Cache, m: Move) returns (lost: seq<Key>)
    requires Valid(cfg, s) && Enabled(cfg, s, m) && (m.EvictOne? || m.DrainAll? || m.Report?)
    ensures Shrunk(s, Apply(cfg, s, m), lost)
  {
    hide Valid, Evict, Victim, Shrunk;
    if m.EvictOne? {
      ShrunkByEviction(cfg, s);
      lost := [Victim(cfg, s).key];
    } else {
      UntouchedShrinks(cfg, s, Apply(cfg, s, m));
      lost := [];
    }
  }

  lemma UntouchedShrinks(cfg: Config, s: Cache, t: Cache)
    requires Valid(cfg, s) && t.data == s.data && t.freq == s.freq && t.prio == s.prio
    requires t.past.evicted == s.past.evicted
    ensures Shrunk(s, t, [])
  {
    hide Valid;
    KeysAgree(cfg, s);
    assert s.past.evicted + [] == s.past.evicted;
  }

  lemma ShrunkTwice(s: Cache, t: Cache, u: Cache, a: seq<Key>, b: seq<Key>)
    requires Shrunk(s, t, a) && Shrunk(t, u, b)
    ensures Shrunk(s, u, a + b)
  {
    assert Members(a + b) == Members(a) + Members(b);
  }

  lemma {:induction false} InternalShrinks(cfg: Config, s: Cache, ms: seq<Move>, t: Cache) returns (lost: seq<Key>)
    requires Valid(cfg, s) && Path(cfg, s, ms, t) && Internal(ms)
    ensures Shrunk(s, t, lost)
    decreases |ms|
  {
    hide Valid, Apply, Enabled, Shrunk;
    if |ms| == 0 {
      UntouchedShrinks(cfg, s, s);
      lost := [];
    } else {
      var u := Apply(cfg, s, ms[0]);
      assert ms[0] in ms;
      var first := ShrunkOnce(cfg, s, ms[0]);
      var rest := InternalShrinks(cfg, u, ms[1..], t);
      ShrunkTwice(s, u, t, first, rest);
      lost := first + rest;
    }
  }

  /** The value fits without any eviction, or takes no more room than the one it replaces. */
  predicate FitsAsIs(cfg: Config, s: Cache, k: Key, v: Value) {
    || s.currsize + cfg.getsizeof(v) <= cfg.maxsize
    || (k in s.data && cfg.getsizeof(v) <= cfg.getsizeof(s.data[k]))
  }

  /** From `s` to `t` the keys `lost` have been evicted and `k` has come in with `v`: its
      frequency is kept if the key was, and 1 otherwise, its priority is priced at the aging
      value those evictions left, and every other resident is untouched. */
  ghost predicate Placed(cfg: Config, s: Cache, t: Cache, lost: seq<Key>, k: Key, v: Value) {
    && t.past.evicted == s.past.evicted + lost
    && t.data.Keys == s.data.Keys - Members(lost) + {k}
    && k in t.data && t.data[k] == v && k in t.freq && k in t.prio
    && t.freq[k] == (if k in s.freq && k !in lost then s.freq[k] else 1)
    && Formula(cfg, t.prio[k], t.inflation, t.freq[k], v)
    && forall j :: j in t.data && j != k ==> SameAt(s, t, j)
  }

  /** `k` is in `t` with the value, frequency and priority it had in `s`. */
  predicate SameAt(s: Cache, t: Cache, k: Key) {
    && k in s.data && k in s.prio && k in s.freq && k in t.data && k in t.prio && k in t.freq
    && t.data[k] == s.data[k] && t.prio[k] == s.prio[k] && t.freq[k] == s.freq[k]
  }

  /** A set of a value that fits at all, with nothing evicted if it fits as it is. */
  lemma SetEffect(cfg: Config, s: Cache, k: Key, v: Value) returns (lost: seq<Key>)
    requires Valid(cfg, s) && Returns(cfg, s, k, v) && cfg.getsizeof(v) <= cfg.maxsize
    ensures Placed(cfg, s, SetItem(cfg, s, k, v), lost, k, v)
    ensures FitsAsIs(cfg, s, k, v) ==> lost == [] && SetItem(cfg, s, k, v).inflation == s.inflation
  {
    hide Valid, Push, MakeRoom, Formula, NewestAdded, Stamped, Placed, Room, Shrunk, FitsAsIs;
    var room := Room(cfg, s, k, v);
    lost := RoomShrinks(cfg, s, k, v);
    KeysAgree(cfg, s);
    KeysAgree(cfg, room);
    StampsOf(cfg, room);
    var stored := Store(cfg, room, k, v);
    PushEffect(cfg, stored, k, v);
    assert SetItem(cfg, s, k, v) == Push(cfg, stored, k, v);
    PlacedFrom(cfg, s, room, Push(cfg, stored, k, v), lost, k, v);
  }

  lemma PlacedFrom(cfg: Config, s: Cache, room: Cache, t: Cache, lost: seq<Key>, k: Key, v: Value)
    requires s.prio.Keys == s.freq.Keys == s.data.Keys && room.prio.Keys == room.freq.Keys == room.data.Keys
    requires Shrunk(s, room, lost)
    requires var stored := Store(cfg, room, k, v);
      && t == stored.(prio := t.prio, heap := t.heap, clock := t.clock)
      && k in stored.freq && k in t.prio && t.prio == stored.prio[k := t.prio[k]]
      && Formula(cfg, t.prio[k], stored.inflation, stored.freq[k], v)
    ensures Placed(cfg, s, t, lost, k, v)
  {
    hide Formula;
    assert forall j :: j in room.data <==> j in s.data && j !in lost;
  }

  lemma RoomShrinks(cfg: Config, s: Cache, k: Key, v: Value) returns (lost: seq<Key>)
    requires Valid(cfg, s) && Returns(cfg, s, k, v) && !TooLarge(cfg, v)
    ensures Shrunk(s, Room(cfg, s, k, v), lost)
    ensures FitsAsIs(cfg, s, k, v) ==> lost == [] && Room(cfg, s, k, v) == s
  {
    hide Valid, Shrunk, Popitem;
    if FitsAsIs(cfg, s, k, v) {
      UntouchedShrinks(cfg, s, s);
      lost := [];
    } else {
      var ms := MakeRoomPath(cfg, s, cfg.getsizeof(v));
      lost := InternalShrinks(cfg, s, ms, Room(cfg, s, k, v));
    }
  }

  ghost function PopitemTimes(cfg: Config, s: Cache, n: nat): (r: Cache)
    requires Valid(cfg, s)
    ensures Valid(cfg, r)
    decreases n
  {
    if n == 0 then s else PopitemTimes(cfg, Popitem(cfg, s), n - 1)
  }

  lemma PopitemShrinks(cfg: Config, s: Cache)
    requires Valid(cfg, s)
    ensures Progressive(cfg) && s.data != map[] ==> |Popitem(cfg, s).data| < |s.data|
  {
  }

  /** The overflow loop pops no more often than it must: before every pop there was no room. */
  lemma {:induction false} RoomIsMinimal(cfg: Config, s: Cache, size: nat) returns (n: nat)
    requires Valid(cfg, s) && size <= cfg.maxsize && (Progressive(cfg) || s.currsize + size <= cfg.maxsize)
    ensures MakeRoom(cfg, s, size) == PopitemTimes(cfg, s, n)
    ensures PopitemTimes(cfg, s, n).currsize + size <= cfg.maxsize
    ensures forall m: nat :: m < n ==> PopitemTimes(cfg, s, m).currsize + size > cfg.maxsize
    decreases |s.data|
  {
    hide Valid, Popitem;
    if s.currsize + size > cfg.maxsize {
      EmptyHasRoom(cfg, s);
      PopitemShrinks(cfg, s);
      var u := Popitem(cfg, s);
      var rest := RoomIsMinimal(cfg, u, size);
      n := rest + 1;
      forall m: nat | m < n
        ensures PopitemTimes(cfg, s, m).currsize + size > cfg.maxsize
      {
        if m > 0 {
          assert PopitemTimes(cfg, s, m) == PopitemTimes(cfg, u, m - 1);
        }
      }
    } else {
      n := 0;
    }
  }

  // ---------- who is preferred ----------

  lemma Quotients(x: real, y: real, d: real)
    requires x < y && d > 0.0
    ensures x / d < y / d
  {
    var p, q := x / d, y / d;
    assert p * d == x && q * d == y;
    if p >= q {
      Products(q, p, d);
    }
  }

  lemma Products(x: real, y: real, d: real)
    requires x <= y && d > 0.0
    ensures x * d <= y * d
  {
    assert (y - x) * d >= 0.0;
  }

  lemma StrictProducts(a: nat, b: nat, c: real)
    requires a < b && c > 0.0
    ensures a as real * c < b as real * c
  {
    assert (b as real - a as real) * c > 0.0;
  }

  lemma MoreReadsPrice(cfg: Config, p: real, r: real, l: real, a: nat, b: nat, v: Value)
    requires cfg.variant != CostOnly && Cost(v) > 0.0 && a < b
    requires Formula(cfg, p, l, a, v) && Formula(cfg, r, l, b, v)
    ensures p < r
  {
    Ratios(a, b, Cost(v), Size(cfg, v) as real);
  }

  lemma Ratios(a: nat, b: nat, c: real, d: real)
    requires a < b && c > 0.0 && d > 0.0
    ensures a as real * c / d < b as real * c / d
  {
    var x, y := a as real * c, b as real * c;
    assert x < y by { StrictProducts(a, b, c); }
    Quotients(x, y, d);
  }

  /** Of two residents of the same value, priced at the same aging value, the one with more
      reads is not the victim. */
  lemma MoreReadsSurvive(cfg: Config, s: Cache, a: Key, b: Key, l: real)
    requires Valid(cfg, s) && cfg.variant != CostOnly && a in s.data && b in s.data
    requires a in s.prio && a in s.freq && b in s.prio && b in s.freq
    requires s.data[a] == s.data[b] && Cost(s.data[a]) > 0.0 && s.freq[a] > s.freq[b]
    requires Formula(cfg, s.prio[a], l, s.freq[a], s.data[a]) && Formula(cfg, s.prio[b], l, s.freq[b], s.data[b])
    ensures Victim(cfg, s).key != a
  {
    hide Valid, Victim, Formula;
    MoreReadsPrice(cfg, s.prio[b], s.prio[a], l, s.freq[b], s.freq[a], s.data[a]);
    Eviction.VictimHasLeastPriority(cfg, s, b);
  }

  /** Every resident is priced at the present aging value. */
  ghost predicate PricedAtPresent(cfg: Config, s: Cache) {
    && s.prio.Keys == s.freq.Keys == s.data.Keys
    && forall k :: k in s.data ==> Formula(cfg, s.prio[k], s.inflation, s.freq[k], s.data[k])
  }

  lemma CalmMovePrices(cfg: Config, s: Cache, m: Move)
    requires Valid(cfg, s) && Enabled(cfg, s, m) && !m.EvictOne? && PricedAtPresent(cfg, s)
    ensures PricedAtPresent(cfg, Apply(cfg, s, m)) && Apply(cfg, s, m).inflation == s.inflation
  {
    hide Valid, Push, Formula, NewestAdded, Stamped;
    StampsOf(cfg, s);
    match m
    case Put(k, v) => PushEffect(cfg, Store(cfg, s, k, v), k, v);
    case Hit(k) => PushEffect(cfg, Touch(s, k), k, s.data[k]);
    case _ =>
  }

  lemma {:induction false} CalmPathPrices(cfg: Config, s: Cache, ms: seq<Move>, t: Cache)
    requires Valid(cfg, s) && Path(cfg, s, ms, t) && PricedAtPresent(cfg, s) && Aging.Evicted(cfg, s, ms) == []
    ensures PricedAtPresent(cfg, t) && t.inflation == s.inflation
    decreases |ms|
  {
    hide Valid, Apply, Enabled, PricedAtPresent, Victim;
    if |ms| != 0 {
      CalmMovePrices(cfg, s, ms[0]);
      CalmPathPrices(cfg, Apply(cfg, s, ms[0]), ms[1..], t);
    }
  }

  /** Until the first eviction of a run, every resident is priced at L = 0. */
  lemma PricesBeforeFirstEviction(cfg: Config, ops: seq<Op>)
    requires Progressive(cfg) && Reached(cfg, ops).past.evicted == []
    ensures PricedAtPresent(cfg, Reached(cfg, ops)) && Reached(cfg, ops).inflation == 0.0
  {
    EmptyValid(cfg);
    hide Valid, Run, Path, Aging.Evicted;
    var ms := RunPath(cfg, Empty(), ops);
    Aging.PathEvicts(cfg, Empty(), ms, Run(cfg, Empty(), ops));
    CalmPathPrices(cfg, Empty(), ms, Run(cfg, Empty(), ops));
  }

  /** So the first victim of a run is never an entry read more often than another of the same
      positive cost and size. */
  lemma FirstVictimIsLeastRead(cfg: Config, ops: seq<Op>, a: Key, b: Key)
    requires Progressive(cfg) && cfg.variant != CostOnly && Reached(cfg, ops).past.evicted == []
    requires a in Reached(cfg, ops).data && b in Reached(cfg, ops).data
    requires Reached(cfg, ops).data[a] == Reached(cfg, ops).data[b] && Cost(Reached(cfg, ops).data[a]) > 0.0
    ensures var s := Reached(cfg, ops);
      && a in s.freq && b in s.freq && (s.freq[a] > s.freq[b] ==> Victim(cfg, s).key != a)
  {
    hide Valid, Reached, Formula, Victim;
    PricesBeforeFirstEviction(cfg, ops);
    var s := Reached(cfg, ops);
    if s.freq[a] > s.freq[b] {
      MoreReadsSurvive(cfg, s, a, b, 0.0);
    }
  }

  // ---------- every run ----------

  /** The resident is priced at an aging value of the past. */
  ghost predicate PricedOnce(cfg: Config, s: Cache, k: Key)
    requires k in s.data && k in s.prio && k in s.freq
  {
    exists l: real :: l <= s.inflation && Formula(cfg, s.prio[k], l, s.freq[k], s.data[k])
  }

  ghost predicate AllPricedOnce(cfg: Config, s: Cache) {
    && s.prio.Keys == s.freq.Keys == s.data.Keys
    && forall k :: k in s.data ==> PricedOnce(cfg, s, k)
  }

  lemma StillPriced(cfg: Config, s: Cache, t: Cache, k: Key)
    requires SameAt(s, t, k) && s.inflation <= t.inflation && PricedOnce(cfg, s, k)
    ensures PricedOnce(cfg, t, k)
  {
    hide Formula;
    var l: real :| l <= s.inflation && Formula(cfg, s.prio[k], l, s.freq[k], s.data[k]);
    assert l <= t.inflation && Formula(cfg, t.prio[k], l, t.freq[k], t.data[k]);
  }

  lemma MovePrices(cfg: Config, s: Cache, m: Move)
    requires Valid(cfg, s) && Enabled(cfg, s, m) && AllPricedOnce(cfg, s)
    requires Inflation.Floored(cfg, s) && Inflation.Affordable(m)
    ensures AllPricedOnce(cfg, Apply(cfg, s, m))
  {
    hide Valid, Apply, PricedOnce, Inflation.Floored, Inflation.Affordable;
    Inflation.MoveFloored(cfg, s, m);
    var t := Apply(cfg, s, m);
    KeysAgree(cfg, t);
    forall k | k in t.data
      ensures PricedOnce(cfg, t, k)
    {
      if SameAt(s, t, k) {
        StillPriced(cfg, s, t, k);
      } else {
        FreshlyPriced(cfg, s, m, k);
      }
    }
  }

  lemma FreshlyPriced(cfg: Config, s: Cache, m: Move, k: Key)
    requires Valid(cfg, s) && Enabled(cfg, s, m) && k in Apply(cfg, s, m).data && !SameAt(s, Apply(cfg, s, m), k)
    ensures var t := Apply(cfg, s, m);
      k in t.prio && k in t.freq && PricedOnce(cfg, t, k)
  {
    hide Valid, Push, Formula, NewestAdded, Stamped, Evict, Victim;
    KeysAgree(cfg, s);
    StampsOf(cfg, s);
    match m
    case EvictOne => Eviction.EvictTakesVictim(cfg, s);
    case Put(j, v) => PushEffect(cfg, Store(cfg, s, j, v), j, v);
    case Hit(j) => PushEffect(cfg, Touch(s, j), j, s.data[j]);
    case _ =>
  }

  lemma {:induction false} PathPrices(cfg: Config, s: Cache, ms: seq<Move>, t: Cache)
    requires Valid(cfg, s) && Path(cfg, s, ms, t) && AllPricedOnce(cfg, s) && Inflation.Floored(cfg, s)
    requires forall m :: m in ms ==> Inflation.Affordable(m)
    ensures AllPricedOnce(cfg, t)
    decreases |ms|
  {
    hide Valid, Apply, Enabled, AllPricedOnce, Inflation.Floored, Inflation.Affordable;
    if |ms| != 0 {
      MovePrices(cfg, s, ms[0]);
      Inflation.MoveFloored(cfg, s, ms[0]);
      PathPrices(cfg, Apply(cfg, s, ms[0]), ms[1..], t);
    }
  }

  /** After every run with non-negative costs, every resident's priority is its frequency
      times cost over size above some aging value of the past, so at most that much above the
      present one. */
  lemma RunPrices(cfg: Config, ops: seq<Op>)
    requires Progressive(cfg) && forall op :: op in ops ==> Inflation.AffordableOp(op)
    ensures AllPricedOnce(cfg, Reached(cfg, ops))
  {
    EmptyValid(cfg);
    Inflation.EmptyFloored(cfg);
    hide Valid, Run, Path, Inflation.Floored, PricedOnce;
    var ms := RunPath(cfg, Empty(), ops);
    forall m | m in ms
      ensures Inflation.Affordable(m)
    {
      var i :| 0 <= i < |ms| && ms[i] == m;
      var j :| 0 <= j < |ops| && From(ops[j], ms[i]);
      assert ops[j] in ops && Inflation.AffordableOp(ops[j]);
    }
    PathPrices(cfg, Empty(), ms, Run(cfg, Empty(), ops));
  }

  // ---------- an example ----------

  /** Two placeholders in a cache of three, the first one read once: the second one goes. */
  lemma ReadEntryStays(a: Key, b: Key)
    requires a != b
    ensures var cfg := Config(3, _ => 1, Gdsf, Plain);
      var s := Reached(cfg, [Set(a, Other), Set(b, Other), Get(a)]);
      && s.data.Keys == {a, b} && Victim(cfg, s).key == b
  {
    hide Valid, Step, Victim, Formula;
    var cfg := Config(3, _ => 1, Gdsf, Plain);
    EmptyValid(cfg);
    var s0 := Empty();
    var s1 := Step(cfg, s0, Set(a, Other));
    var s2 := Step(cfg, s1, Set(b, Other));
    var s3 := Step(cfg, s2, Get(a));
    ThreeSteps(cfg, Set(a, Other), Set(b, Other), Get(a));
    FirstSetFits(cfg, s0, a);
    FirstSetFits(cfg, s1, b);
    ReadIsStep(cfg, s2, a);
    ReadEffect(cfg, s2, a);
    ReadLogsNothing(cfg, s2, a);
    FirstVictimIsLeastRead(cfg, [Set(a, Other), Set(b, Other), Get(a)], a, b);
    Eviction.VictimResides(cfg, s3);
  }

  lemma ReadIsStep(cfg: Config, s: Cache, k: Key)
    requires Valid(cfg, s)
    ensures Step(cfg, s, Get(k)) == GetItem(cfg, s, k)
  {
    hide Valid, GetItem;
  }

  lemma ReadLogsNothing(cfg: Config, s: Cache, k: Key)
    requires Valid(cfg, s)
    ensures GetItem(cfg, s, k).past.evicted == s.past.evicted
  {
  }

  /** A placeholder of size 1 for a new key, with room to spare. */
  lemma FirstSetFits(cfg: Config, s: Cache, k: Key)
    requires Valid(cfg, s) && cfg.getsizeof == (_ => 1) && k !in s.data && |s.data| + 1 <= cfg.maxsize
    requires cfg.popMode == Plain
    ensures var t := Step(cfg, s, Set(k, Other));
      && t.past.evicted == s.past.evicted && t.data.Keys == s.data.Keys + {k} && t.data[k] == Other
      && k in t.freq && t.freq[k] == 1
      && (forall j :: j in s.data ==> SameAt(s, t, j))
      && |t.data| == |s.data| + 1
  {
    hide Valid, SetItem, Formula, Step, Placed, Total;
    KeysAgree(cfg, s);
    Eviction.UnitCount(cfg, s);
    var lost := SetEffect(cfg, s, k, Other);
    assert lost == [];
    SetIsStep(cfg, s, k);
    PlacedBeside(cfg, s, SetItem(cfg, s, k, Other), k);
  }

  lemma PlacedBeside(cfg: Config, s: Cache, t: Cache, k: Key)
    requires Placed(cfg, s, t, [], k, Other) && k !in s.data && s.freq.Keys == s.data.Keys
    ensures t.past.evicted == s.past.evicted && t.data.Keys == s.data.Keys + {k} && t.data[k] == Other
    ensures k in t.freq && t.freq[k] == 1 && |t.data| == |s.data| + 1
    ensures forall j :: j in s.data ==> SameAt(s, t, j)
  {
    hide Formula;
    assert t.data.Keys == s.data.Keys + {k};
    assert |t.data.Keys| == |s.data.Keys| + 1;
  }

  lemma SetIsStep(cfg: Config, s: Cache, k: Key)
    requires Valid(cfg, s) && cfg.popMode == Plain
    ensures Step(cfg, s, Set(k, Other)) == SetItem(cfg, s, k, Other)
  {
    hide Valid, SetItem;
  }

  lemma ThreeSteps(cfg: Config, p: Op, q: Op, r: Op)
    requires Progressive(cfg) && Valid(cfg, Empty())
    ensures Reached(cfg, [p, q, r]) == Step(cfg, Step(cfg, Step(cfg, Empty(), p), q), r)
  {
    hide Valid, Step;
    var s := Step(cfg, Empty(), p);
    var t := Step(cfg, s, q);
    var u := Step(cfg, t, r);
    assert [p, q, r][1..] == [q, r] && [q, r][1..] == [r] && [r][1..] == [];
    assert Run(cfg, u, []) == u;
    assert Run(cfg, t, [r]) == Run(cfg, u, [r][1..]);
    assert Run(cfg, s, [q, r]) == Run(cfg, t, [q, r][1..]);
    assert Run(cfg, Empty(), [p, q, r]) == Run(cfg, s, [p, q, r][1..]);
  }
}
