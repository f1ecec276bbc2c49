/** Aging as a liveness bound: an entry nobody touches any more is evicted after a
    number of evictions that depends only on its lead over the aging value. */
module Aging {
  import opened Basics
  import opened GdsfModel
  import opened GdsfPaths
  import opened Inflation
  import Eviction

  /** The keys a path evicts, in order. */
  ghost function Evicted(cfg: Config, s: Cache, ms: seq<Move>): (ks: seq<Key>)
    requires Valid(cfg, s)
    decreases |ms|
  {
    if |ms| == 0 || !Enabled(cfg, s, ms[0]) then []
    else (if ms[0].EvictOne? then [Victim(cfg, s).key] else []) + Evicted(cfg, Apply(cfg, s, ms[0]), ms[1..])
  }

  /** Every resident costs at least `c` per unit of size. */
  ghost predicate Worthy(cfg: Config, s: Cache, c: real) {
    forall k :: k in s.data ==> Density(cfg, s.data[k]) >= c
  }

  /** Moves that leave `x` alone and store only values of density at least `c`. */
  predicate Bystander(cfg: Config, m: Move, x: Key, c: real) {
    match m
    case Put(k, v) => k != x && Density(cfg, v) >= c
    case Hit(k) => k != x
    case Drop(k) => k != x
    case _ => true
  }

  /** No more than `n` residents anywhere along the path. */
  ghost predicate Crowd(cfg: Config, s: Cache, ms: seq<Move>, n: nat)
    requires Valid(cfg, s)
    decreases |ms|
  {
    |s.data| <= n &&
    (|ms| > 0 && Enabled(cfg, s, ms[0]) ==> Crowd(cfg, Apply(cfg, s, ms[0]), ms[1..], n))
  }

  lemma WeightAtLeast(cfg: Config, freq: nat, v: Value, c: real)
    requires freq >= 1 && c > 0.0 && Density(cfg, v) >= c
    ensures Weight(cfg, freq, v) >= c
  {
    hide Weight, Density;
    WeightIsProduct(cfg, freq, v);
    var d := Density(cfg, v);
    assert (freq as real - 1.0) * d >= 0.0;
  }

  /** The other residents whose priority is below `top`. */
  ghost function Low(s: Cache, x: Key, top: real): set<Key>
    requires s.prio.Keys == s.data.Keys
  {
    set k | k in s.data && k != x && s.prio[k] < top
  }

  /** How many steps of width `c` fit between 0 and `d`, counting the last one begun. */
  function Bands(d: real, c: real): (n: nat)
    requires c > 0.0
  {
    if d < 0.0 then 0 else (d / c).Floor + 1
  }

  lemma BandsMonotone(d: real, d': real, c: real)
    requires c > 0.0 && d <= d'
    ensures Bands(d, c) <= Bands(d', c)
  {
    if d >= 0.0 {
      assert d / c <= d' / c;
    }
  }

  lemma BandsStep(d: real, c: real)
    requires c > 0.0 && d >= 0.0
    ensures Bands(d - c, c) == Bands(d, c) - 1
  {
    assert d / c * c == d && (d - c) / c * c == d - c;
    Cancel((d - c) / c, d / c - 1.0, c);
    if d < c {
      assert d / c < 1.0;
    } else {
      assert d / c >= 1.0;
    }
  }

  lemma Cancel(a: real, b: real, c: real)
    requires c > 0.0 && a * c == b * c
    ensures a == b
  {
    assert (a - b) * c == 0.0;
  }

  /** Evictions still possible before `x` goes: the low residents of the current band
      plus a bandful for every band up to the priority of `x`. */
  ghost function Slack(s: Cache, x: Key, top: real, n: nat, c: real): int
    requires s.prio.Keys == s.data.Keys && x in s.data && c > 0.0
  {
    |Low(s, x, top)| + (n - 1) * Bands(s.prio[x] - top, c)
  }

  ghost predicate Watched(cfg: Config, s: Cache, x: Key, top: real, c: real) {
    && Valid(cfg, s) && Floored(cfg, s) && Worthy(cfg, s, c)
    && s.prio.Keys == s.data.Keys
    && cfg.variant != NoAging && c > 0.0
    && x in s.data && top <= s.inflation + c
  }

  lemma EvictLowers(cfg: Config, s: Cache, x: Key, top: real, n: nat, c: real) returns (top': real)
    requires Watched(cfg, s, x, top, c) && |s.data| <= n
    requires Victim(cfg, s).key != x
    ensures Watched(cfg, Evict(cfg, s), x, top', c)
    ensures Slack(Evict(cfg, s), x, top', n, c) <= Slack(s, x, top, n, c) - 1
  {
    hide Valid, Victim, Evict, Watched, Low, Slack, Bands;
    WatchedFacts(cfg, s, x, top, n, c);
    var v, t := Victim(cfg, s).key, Evict(cfg, s);
    EvictFacts(cfg, s, x, top, c);
    var p := s.prio[v];
    if p < top {
      top' := top;
      EvictWatched(cfg, s, x, top, c, top');
      LowLosesVictim(s, t, v, x, top);
      SlackFromLow(s, t, x, top, n, c);
    } else {
      top' := p + c;
      EvictWatched(cfg, s, x, top, c, top');
      SlackFromNextBand(s, t, x, top, p, n, c);
    }
  }

  lemma SlackFromLow(s: Cache, t: Cache, x: Key, top: real, n: nat, c: real)
    requires s.prio.Keys == s.data.Keys && t.prio.Keys == t.data.Keys && x in s.data && x in t.data
    requires t.prio[x] == s.prio[x] && c > 0.0 && |Low(t, x, top)| == |Low(s, x, top)| - 1
    ensures Slack(t, x, top, n, c) == Slack(s, x, top, n, c) - 1
  {
  }

  lemma SlackFromNextBand(s: Cache, t: Cache, x: Key, top: real, p: real, n: nat, c: real)
    requires s.prio.Keys == s.data.Keys && t.prio.Keys == t.data.Keys && x in s.data && x in t.data
    requires t.prio[x] == s.prio[x] && c > 0.0 && |t.data| == |s.data| - 1 <= n - 1
    requires top <= p <= s.prio[x]
    ensures Slack(t, x, p + c, n, c) <= Slack(s, x, top, n, c) - 1
  {
    LowFitsBeside(t, x, p + c);
    BandsMonotone(s.prio[x] - p, s.prio[x] - top, c);
    BandsStep(s.prio[x] - p, c);
    assert s.prio[x] - (p + c) == s.prio[x] - p - c;
    OneBandLess(n, |Low(t, x, p + c)|, Bands(s.prio[x] - (p + c), c), Bands(s.prio[x] - top, c));
  }

  lemma EvictFacts(cfg: Config, s: Cache, x: Key, top: real, c: real)
    requires Watched(cfg, s, x, top, c) && Victim(cfg, s).key != x
    ensures var v, t := Victim(cfg, s).key, Evict(cfg, s);
      && v in s.data && x in s.data && s.prio.Keys == s.data.Keys && t.prio.Keys == t.data.Keys
      && t.data == s.data - {v} && t.prio == s.prio - {v} && |t.data| == |s.data| - 1
      && top <= s.inflation + c && s.inflation <= s.prio[v] == t.inflation && s.prio[v] <= s.prio[x] && c > 0.0
  {
    Eviction.EvictTakesVictim(cfg, s);
    Eviction.VictimResides(cfg, s);
    EvictFloored(cfg, s);
    KeysAgree(cfg, Evict(cfg, s));
    hide Valid, Victim, Evict, Floored, Worthy;
  }

  lemma EvictWatched(cfg: Config, s: Cache, x: Key, top: real, c: real, top': real)
    requires Watched(cfg, s, x, top, c) && Victim(cfg, s).key != x && top' <= s.prio[Victim(cfg, s).key] + c
    ensures Watched(cfg, Evict(cfg, s), x, top', c)
  {
    hide Valid, Victim, Evict, Floored;
    EvictFacts(cfg, s, x, top, c);
    EvictFloored(cfg, s);
  }

  lemma LowLosesVictim(s: Cache, t: Cache, v: Key, x: Key, top: real)
    requires s.prio.Keys == s.data.Keys && t.data == s.data - {v} && t.prio == s.prio - {v}
    requires v in s.data && v != x && s.prio[v] < top
    ensures |Low(t, x, top)| == |Low(s, x, top)| - 1
  {
    assert Low(t, x, top) == Low(s, x, top) - {v};
    assert v in Low(s, x, top);
  }

  lemma LowFitsBeside(t: Cache, x: Key, top: real)
    requires t.prio.Keys == t.data.Keys && x in t.data
    ensures |Low(t, x, top)| <= |t.data| - 1
  {
    SubsetSize(Low(t, x, top), t.data.Keys - {x});
  }

  lemma SubsetSize(a: set<Key>, b: set<Key>)
    requires a <= b
    ensures |a| <= |b|
  {
    assert b == a + (b - a);
  }

  lemma OneBandLess(n: nat, low: nat, b': nat, b: nat)
    requires low <= n - 2 && b' <= b - 1
    ensures low + (n - 1) * b' <= (n - 1) * b - 1
  {
    TimesMonotone(n - 1, b', b - 1);
    assert (n - 1) * (b - 1) == (n - 1) * b - (n - 1);
  }

  lemma TimesMonotone(k: nat, x: int, y: int)
    requires x <= y
    ensures k * x <= k * y
  {
    assert k * y - k * x == k * (y - x);
    NonNegativeProduct(k, y - x);
  }

  lemma NonNegativeProduct(a: nat, b: nat)
    ensures a * b >= 0
  {
  }

  /** A push of another key lands at or above the top of the band. */
  lemma PushStaysHigh(cfg: Config, s: Cache, k: Key, v: Value, x: Key, top: real, c: real)
    requires k in s.freq && s.freq[k] >= 1 && k != x && c > 0.0 && Density(cfg, v) >= c
    requires cfg.variant != NoAging && top <= s.inflation + c
    ensures Push(cfg, s, k, v).prio[k] >= top
    ensures Push(cfg, s, k, v).prio == s.prio[k := Push(cfg, s, k, v).prio[k]]
    ensures Push(cfg, s, k, v).inflation == s.inflation && Push(cfg, s, k, v).data == s.data
  {
    WeightAtLeast(cfg, s.freq[k], v, c);
  }

  lemma CalmMove(cfg: Config, s: Cache, m: Move, x: Key, top: real, n: nat, c: real)
    requires Watched(cfg, s, x, top, c) && Enabled(cfg, s, m) && Bystander(cfg, m, x, c) && !m.EvictOne?
    requires n >= 1
    ensures Watched(cfg, Apply(cfg, s, m), x, top, c)
    ensures Slack(Apply(cfg, s, m), x, top, n, c) <= Slack(s, x, top, n, c)
  {
    hide Valid, Apply, Floored, Slack, Low, Worthy, Enabled;
    AffordableBystander(cfg, m, x, c);
    MoveFloored(cfg, s, m);
    var t := Apply(cfg, s, m);
    CalmFacts(cfg, s, m, x, top, c);
    SlackShrinks(s, t, x, top, n, c);
  }

  lemma SlackShrinks(s: Cache, t: Cache, x: Key, top: real, n: nat, c: real)
    requires s.prio.Keys == s.data.Keys && t.prio.Keys == t.data.Keys && x in s.data && x in t.data
    requires t.prio[x] == s.prio[x] && c > 0.0 && Low(t, x, top) <= Low(s, x, top)
    ensures Slack(t, x, top, n, c) <= Slack(s, x, top, n, c)
  {
    SubsetSize(Low(t, x, top), Low(s, x, top));
  }

  lemma AffordableBystander(cfg: Config, m: Move, x: Key, c: real)
    requires Bystander(cfg, m, x, c) && c > 0.0
    ensures Affordable(m)
  {
    if m.Put? {
      var d := Divisor(cfg, m.value) as real;
      assert CostOf(m.value) / d * d == CostOf(m.value);
    }
  }

  lemma CalmFacts(cfg: Config, s: Cache, m: Move, x: Key, top: real, c: real)
    requires Watched(cfg, s, x, top, c) && Enabled(cfg, s, m) && Bystander(cfg, m, x, c) && !m.EvictOne?
    ensures var t := Apply(cfg, s, m);
      && Worthy(cfg, t, c) && x in t.data && x in t.prio && t.prio[x] == s.prio[x] && t.inflation == s.inflation
      && t.prio.Keys == t.data.Keys
      && Low(t, x, top) <= Low(s, x, top)
  {
    hide Valid, Floored, Push, Weight, Density, Priority;
    KeysAgree(cfg, Apply(cfg, s, m));
    match m
    case Put(k, v) =>
      FreqPositive(cfg, s, k);
      PushStaysHigh(cfg, Store(cfg, s, k, v), k, v, x, top, c);
    case Hit(k) =>
      FreqPositive(cfg, s, k);
      PushStaysHigh(cfg, Touch(s, k), k, s.data[k], x, top, c);
    case _ =>
  }

  /** Along any path that leaves `x` alone, `x` is among the first `b + 1` victims as
      soon as there are that many, where `b` is its slack. */
  lemma {:induction false} AgingPath(cfg: Config, s: Cache, ms: seq<Move>, t: Cache, x: Key, top: real, n: nat, c: real, b: nat)
    requires Watched(cfg, s, x, top, c) && Path(cfg, s, ms, t) && Crowd(cfg, s, ms, n)
    requires forall m :: m in ms ==> Bystander(cfg, m, x, c)
    requires Slack(s, x, top, n, c) <= b < |Evicted(cfg, s, ms)|
    ensures x in Evicted(cfg, s, ms)[..b + 1]
    decreases |ms|
  {
    hide Valid, Apply, Slack, Watched, Evict, Victim, Enabled;
    WatchedFacts(cfg, s, x, top, n, c);
    var u := Apply(cfg, s, ms[0]);
    var rest := ms[1..];
    assert Path(cfg, u, rest, t);
    if ms[0] == EvictOne {
      ApplyEvict(cfg, s);
      var v := Victim(cfg, s).key;
      assert Evicted(cfg, s, ms) == [v] + Evicted(cfg, u, rest);
      if v == x {
        assert Evicted(cfg, s, ms)[0] == x;
      } else {
        var top' := EvictLowers(cfg, s, x, top, n, c);
        WatchedFacts(cfg, u, x, top', n, c);
        AgingPath(cfg, u, rest, t, x, top', n, c, b - 1);
        assert Evicted(cfg, s, ms)[..b + 1] == [v] + Evicted(cfg, u, rest)[..b];
      }
    } else {
      assert Evicted(cfg, s, ms) == Evicted(cfg, u, rest);
      CalmMove(cfg, s, ms[0], x, top, n, c);
      AgingPath(cfg, u, rest, t, x, top, n, c, b);
    }
  }

  lemma ApplyEvict(cfg: Config, s: Cache)
    requires Valid(cfg, s) && s.data != map[]
    ensures Apply(cfg, s, EvictOne) == Evict(cfg, s)
  {
  }

  lemma WatchedFacts(cfg: Config, s: Cache, x: Key, top: real, n: nat, c: real)
    requires Watched(cfg, s, x, top, c) && |s.data| <= n
    ensures Valid(cfg, s) && s.prio.Keys == s.data.Keys && x in s.data && c > 0.0
    ensures s.data != map[] && n >= 1
    ensures Slack(s, x, top, n, c) >= 0
  {
    assert |s.data| != 0;
    assert (n - 1) * Bands(s.prio[x] - top, c) >= 0;
  }

  // ---------- the bound for runs ----------

  predicate SparesOp(cfg: Config, op: Op, x: Key, c: real) {
    match op
    case Set(k, v) => k != x && Density(cfg, v) >= c
    case Get(k) => k != x
    case Del(k) => k != x
    case PopOp => true
  }

  lemma {:induction false} PathEvicts(cfg: Config, s: Cache, ms: seq<Move>, t: Cache)
    requires Valid(cfg, s) && Path(cfg, s, ms, t)
    ensures t.past.evicted == s.past.evicted + Evicted(cfg, s, ms)
    decreases |ms|
  {
    hide Valid, Evict, Victim;
    if |ms| != 0 {
      var u := Apply(cfg, s, ms[0]);
      MoveEvicts(cfg, s, ms[0]);
      PathEvicts(cfg, u, ms[1..], t);
    }
  }

  lemma MoveEvicts(cfg: Config, s: Cache, m: Move)
    requires Valid(cfg, s) && Enabled(cfg, s, m)
    ensures Apply(cfg, s, m).past.evicted
         == s.past.evicted + if m.EvictOne? then [Victim(cfg, s).key] else []
  {
    hide Valid, Evict, Victim;
    if m.EvictOne? {
      Eviction.EvictTakesVictim(cfg, s);
    }
  }

  /** Every value takes up room. */
  ghost predicate Sizable(cfg: Config) {
    forall v :: cfg.getsizeof(v) >= 1
  }

  lemma {:induction false} SizableTotal(size: Value -> nat, data: map<Key, Value>)
    requires forall v :: size(v) >= 1
    ensures |data| <= Total(size, data)
    decreases |data|
  {
    if data != map[] {
      var k :| k in data && Total(size, data) == size(data[k]) + Total(size, data - {k});
      assert (data - {k}).Keys == data.Keys - {k};
      SizableTotal(size, data - {k});
    }
  }

  lemma {:induction false} SizableCrowd(cfg: Config, s: Cache, ms: seq<Move>)
    requires Valid(cfg, s) && Sizable(cfg)
    ensures Crowd(cfg, s, ms, cfg.maxsize)
    decreases |ms|
  {
    SizableTotal(cfg.getsizeof, s.data);
    if |ms| > 0 && Enabled(cfg, s, ms[0]) {
      SizableCrowd(cfg, Apply(cfg, s, ms[0]), ms[1..]);
    }
  }

  /** The number of evictions an entry of priority `p` survives at most, in a cache of
      `n` entries whose aging value stands at `floor`. */
  function Grace(n: nat, p: real, floor: real, c: real): (b: nat)
    requires n >= 1 && c > 0.0 && floor <= p
    ensures b + 1 <= n * (((p - floor) / c).Floor + 1)
  {
    var bands := ((p - floor) / c).Floor + 1;
    GraceHelper(n, p - floor, c);
    (n - 1) * bands
  }

  lemma GraceHelper(n: nat, d: real, c: real)
    requires n >= 1 && c > 0.0 && 0.0 <= d
    ensures (d / c).Floor >= 0
    ensures 0 <= (n - 1) * ((d / c).Floor + 1) <= n * ((d / c).Floor + 1) - 1
  {
    assert d / c >= 0.0;
    var bands := (d / c).Floor + 1;
    assert n * bands == (n - 1) * bands + bands;
    assert 0 <= (n - 1) * bands;
  }

  lemma InitialSlack(s: Cache, x: Key, n: nat, c: real)
    requires s.prio.Keys == s.data.Keys && x in s.data && c > 0.0 && |s.data| <= n
    requires s.inflation <= s.prio[x]
    ensures n >= 1 && Slack(s, x, s.inflation + c, n, c) <= Grace(n, s.prio[x], s.inflation, c)
  {
    var d := s.prio[x] - s.inflation;
    LowFitsBeside(s, x, s.inflation + c);
    assert |s.data| >= 1;
    BandsStep(d, c);
    assert s.prio[x] - (s.inflation + c) == d - c;
    assert (n - 1) * Bands(d, c) == (n - 1) * Bands(d - c, c) + (n - 1);
  }

  lemma ResidentAboveFloor(cfg: Config, s: Cache, x: Key)
    requires Valid(cfg, s) && Floored(cfg, s) && Sizable(cfg) && x in s.data
    ensures x in s.prio && s.inflation <= s.prio[x] && cfg.maxsize >= 1
  {
    SizableTotalCount(cfg, s);
    assert |s.data| != 0;
    assert Represented(s.heap, s.prio, x);
  }

  /** The aging bound.  Let every value cost at least `c > 0` per unit of size.  An entry
      `x` that a run never stores, reads or deletes again is among the first
      `Grace + 1` entries the run evicts, if the run evicts that many at all; and
      `Grace + 1` is at most maxsize * (floor((P - L) / c) + 1). */
  lemma UntouchedEntryAgesOut(cfg: Config, s: Cache, ops: seq<Op>, x: Key, c: real)
    requires Valid(cfg, s) && Progressive(cfg) && Sizable(cfg) && Floored(cfg, s) && Worthy(cfg, s, c)
    requires cfg.variant != NoAging && c > 0.0 && x in s.data
    requires forall op :: op in ops ==> SparesOp(cfg, op, x, c)
    ensures x in s.prio && s.inflation <= s.prio[x] && cfg.maxsize >= 1
    ensures var b := Grace(cfg.maxsize, s.prio[x], s.inflation, c); var t := Run(cfg, s, ops);
      && s.past.evicted <= t.past.evicted
      && (|t.past.evicted| > |s.past.evicted| + b ==>
            x in t.past.evicted[|s.past.evicted|..|s.past.evicted| + b + 1])
  {
    hide Valid, Run, Path, Worthy, Floored, Grace, Slack, Crowd, Evicted, From;
    ResidentAboveFloor(cfg, s, x);
    var ms := RunPath(cfg, s, ops);
    var t := Run(cfg, s, ops);
    PathEvicts(cfg, s, ms, t);
    var b := Grace(cfg.maxsize, s.prio[x], s.inflation, c);
    if |t.past.evicted| > |s.past.evicted| + b {
      AllBystanders(cfg, ops, ms, x, c);
      KeysAgree(cfg, s);
      SizableTotalCount(cfg, s);
      InitialSlack(s, x, cfg.maxsize, c);
      SizableCrowd(cfg, s, ms);
      AgingPath(cfg, s, ms, t, x, s.inflation + c, cfg.maxsize, c, b);
      assert t.past.evicted[|s.past.evicted|..|s.past.evicted| + b + 1] == Evicted(cfg, s, ms)[..b + 1];
    }
  }

  // ---------- from the empty cache ----------

  predicate WorthyMove(cfg: Config, m: Move, c: real) {
    m.Put? ==> Density(cfg, m.value) >= c
  }

  lemma MoveWorthy(cfg: Config, s: Cache, m: Move, c: real)
    requires Valid(cfg, s) && Enabled(cfg, s, m) && Worthy(cfg, s, c) && WorthyMove(cfg, m, c)
    ensures Worthy(cfg, Apply(cfg, s, m), c)
  {
    hide Valid, Evict, Density, Weight, Priority;
    if m.EvictOne? {
      Eviction.EvictTakesVictim(cfg, s);
    }
  }

  lemma {:induction false} PathWorthy(cfg: Config, s: Cache, ms: seq<Move>, t: Cache, c: real)
    requires Valid(cfg, s) && Path(cfg, s, ms, t) && Worthy(cfg, s, c)
    requires forall m :: m in ms ==> WorthyMove(cfg, m, c)
    ensures Worthy(cfg, t, c)
    decreases |ms|
  {
    hide Valid, Apply, Enabled, Worthy, WorthyMove;
    if |ms| != 0 {
      MoveWorthy(cfg, s, ms[0], c);
      PathWorthy(cfg, Apply(cfg, s, ms[0]), ms[1..], t, c);
    }
  }

  predicate WorthyOp(cfg: Config, op: Op, c: real) {
    op.Set? ==> Density(cfg, op.v) >= c
  }

  lemma ReachedWorthy(cfg: Config, ops: seq<Op>, c: real)
    requires Progressive(cfg) && c > 0.0 && forall op :: op in ops ==> WorthyOp(cfg, op, c)
    ensures Worthy(cfg, Reached(cfg, ops), c) && Floored(cfg, Reached(cfg, ops))
  {
    EmptyValid(cfg);
    EmptyFloored(cfg);
    hide Valid, Run, Path, Floored, Worthy, Density;
    var ms := RunPath(cfg, Empty(), ops);
    forall m | m in ms
      ensures WorthyMove(cfg, m, c)
    {
      var i :| 0 <= i < |ms| && ms[i] == m;
      var j :| 0 <= j < |ops| && From(ops[j], ms[i]);
      assert ops[j] in ops && WorthyOp(cfg, ops[j], c);
    }
    EmptyWorthy(cfg, c);
    PathWorthy(cfg, Empty(), ms, Run(cfg, Empty(), ops), c);
    forall op | op in ops
      ensures AffordableOp(op)
    {
      assert WorthyOp(cfg, op, c);
      DenseIsAffordable(cfg, op, c);
    }
    RunFloored(cfg, Empty(), ops);
  }

  lemma EmptyWorthy(cfg: Config, c: real)
    ensures Worthy(cfg, Empty(), c)
  {
  }

  lemma DenseIsAffordable(cfg: Config, op: Op, c: real)
    requires c > 0.0 && WorthyOp(cfg, op, c)
    ensures AffordableOp(op)
  {
    if op.Set? {
      QuotientSign(CostOf(op.v), Divisor(cfg, op.v) as real);
    }
  }

  /** The aging bound for any two stretches of operations from the empty cache: whatever is
      resident after the first and left alone in the second is among the next victims. */
  lemma EveryEntryAgesOut(cfg: Config, before: seq<Op>, after: seq<Op>, x: Key, c: real)
    requires Progressive(cfg) && Sizable(cfg) && cfg.variant != NoAging && c > 0.0
    requires forall op :: op in before ==> WorthyOp(cfg, op, c)
    requires forall op :: op in after ==> SparesOp(cfg, op, x, c)
    requires x in Reached(cfg, before).data
    ensures var s := Reached(cfg, before); var t := Run(cfg, s, after);
      && x in s.prio && s.inflation <= s.prio[x] && cfg.maxsize >= 1
      && var b := Grace(cfg.maxsize, s.prio[x], s.inflation, c);
      && s.past.evicted <= t.past.evicted
      && (|t.past.evicted| > |s.past.evicted| + b ==>
            x in t.past.evicted[|s.past.evicted|..|s.past.evicted| + b + 1])
  {
    hide Valid, Run, Reached, Worthy, Floored, Grace, WorthyOp, SparesOp;
    ReachedWorthy(cfg, before, c);
    UntouchedEntryAgesOut(cfg, Reached(cfg, before), after, x, c);
  }

  lemma SizableTotalCount(cfg: Config, s: Cache)
    requires Valid(cfg, s) && Sizable(cfg)
    ensures |s.data| <= cfg.maxsize
  {
    SizableTotal(cfg.getsizeof, s.data);
  }

  lemma AllBystanders(cfg: Config, ops: seq<Op>, ms: seq<Move>, x: Key, c: real)
    requires AllFrom(ops, ms) && forall op :: op in ops ==> SparesOp(cfg, op, x, c)
    ensures forall m :: m in ms ==> Bystander(cfg, m, x, c)
  {
    forall m | m in ms
      ensures Bystander(cfg, m, x, c)
    {
      var i :| 0 <= i < |ms| && ms[i] == m;
      var j :| 0 <= j < |ops| && From(ops[j], ms[i]);
      assert ops[j] in ops;
    }
  }
}
