/** The aging value and the heap: a floor that only rises. */
module Inflation {
  import opened Basics
  import opened Heapq
  import opened GdsfModel
  import opened GdsfPaths

  ghost predicate AboveFloor(heap: set<Entry>, floor: real) {
    forall e :: e in heap ==> floor <= e.prio
  }

  ghost predicate CostsAtLeastZero(data: map<Key, Value>) {
    forall k :: k in data ==> CostOf(data[k]) >= 0.0
  }

  /** No heap entry, live or stale, lies below the aging value. */
  ghost predicate Floored(cfg: Config, s: Cache) {
    && AboveFloor(s.heap, s.inflation)
    && CostsAtLeastZero(s.data)
    && 0.0 <= s.inflation
    && (cfg.variant == NoAging ==> s.inflation == 0.0)
  }

  lemma WeightSign(cfg: Config, freq: nat, v: Value)
    requires freq >= 1
    ensures Weight(cfg, freq, v) >= 0.0 <==> CostOf(v) >= 0.0
  {
    var d := Divisor(cfg, v) as real;
    var n := if cfg.variant == CostOnly then CostOf(v) else freq as real * CostOf(v);
    assert n >= 0.0 <==> CostOf(v) >= 0.0 by {
      if CostOf(v) < 0.0 { assert freq as real * CostOf(v) < 0.0; }
    }
    QuotientSign(n, d);
  }

  lemma QuotientSign(n: real, d: real)
    requires d > 0.0
    ensures n / d >= 0.0 <==> n >= 0.0
  {
    assert n / d * d == n;
    if n / d < 0.0 {
      assert n / d * d < 0.0;
    }
  }

  /** A push keeps the heap above the aging value exactly when the cost is not negative. */
  lemma PushKeepsFloorIff(cfg: Config, s: Cache, k: Key, v: Value)
    requires k in s.freq && s.freq[k] >= 1 && cfg.variant != NoAging && AboveFloor(s.heap, s.inflation)
    ensures AboveFloor(Push(cfg, s, k, v).heap, s.inflation) <==> CostOf(v) >= 0.0
  {
    WeightSign(cfg, s.freq[k], v);
    var e := Entry(Priority(cfg, s.inflation, s.freq[k], v), s.clock, k);
    assert e in Push(cfg, s, k, v).heap;
  }

  lemma PushFloored(cfg: Config, s: Cache, k: Key, v: Value)
    requires k in s.freq && s.freq[k] >= 1 && CostOf(v) >= 0.0 && Floored(cfg, s)
    ensures Floored(cfg, Push(cfg, s, k, v))
  {
    WeightSign(cfg, s.freq[k], v);
  }

  lemma FreqPositive(cfg: Config, s: Cache, k: Key)
    requires Valid(cfg, s)
    ensures k in s.data <==> k in s.freq
    ensures k in s.data ==> s.freq[k] >= 1
  {
  }

  lemma EvictFloored(cfg: Config, s: Cache)
    requires Valid(cfg, s) && s.data != map[] && Floored(cfg, s)
    ensures Floored(cfg, Evict(cfg, s))
    ensures cfg.variant != NoAging ==> s.inflation <= Evict(cfg, s).inflation
  {
    hide Valid, Least, Live, Skipped;
  }

  predicate Affordable(m: Move) {
    m.Put? ==> CostOf(m.value) >= 0.0
  }

  lemma MoveFloored(cfg: Config, s: Cache, m: Move)
    requires Valid(cfg, s) && Enabled(cfg, s, m) && Floored(cfg, s) && Affordable(m)
    ensures Floored(cfg, Apply(cfg, s, m)) && s.inflation <= Apply(cfg, s, m).inflation
  {
    hide Valid, Evict, Push, Victim, Weight, Priority;
    match m
    case EvictOne =>
      EvictFloored(cfg, s);
    case Put(k, v) =>
      FreqPositive(cfg, s, k);
      PushFloored(cfg, Store(cfg, s, k, v), k, v);
      PushKeepsInflation(cfg, Store(cfg, s, k, v), k, v);
    case Hit(k) =>
      FreqPositive(cfg, s, k);
      PushFloored(cfg, Touch(s, k), k, s.data[k]);
      PushKeepsInflation(cfg, Touch(s, k), k, s.data[k]);
    case _ =>
  }

  lemma PushKeepsInflation(cfg: Config, s: Cache, k: Key, v: Value)
    requires k in s.freq
    ensures Push(cfg, s, k, v).inflation == s.inflation
  {
  }

  lemma {:induction false} PathFloored(cfg: Config, s: Cache, ms: seq<Move>, t: Cache)
    requires Valid(cfg, s) && Path(cfg, s, ms, t) && Floored(cfg, s)
    requires forall m :: m in ms ==> Affordable(m)
    ensures Floored(cfg, t) && s.inflation <= t.inflation
    decreases |ms|
  {
    hide Valid, Apply, Enabled, Floored, Affordable;
    if |ms| != 0 {
      MoveFloored(cfg, s, ms[0]);
      PathFloored(cfg, Apply(cfg, s, ms[0]), ms[1..], t);
    }
  }

  predicate AffordableOp(op: Op) {
    op.Set? ==> CostOf(op.v) >= 0.0
  }

  /** Over every run with non-negative costs the aging value never decreases, and no
      heap entry is ever below it. */
  lemma RunFloored(cfg: Config, s: Cache, ops: seq<Op>)
    requires Valid(cfg, s) && Progressive(cfg) && Floored(cfg, s)
    requires forall op :: op in ops ==> AffordableOp(op)
    ensures Floored(cfg, Run(cfg, s, ops)) && s.inflation <= Run(cfg, s, ops).inflation
  {
    hide Valid, Run, Path, Floored;
    var ms := RunPath(cfg, s, ops);
    forall m | m in ms
      ensures Affordable(m)
    {
      var i :| 0 <= i < |ms| && ms[i] == m;
      var j :| 0 <= j < |ops| && From(ops[j], ms[i]);
      assert ops[j] in ops;
    }
    PathFloored(cfg, s, ms, Run(cfg, s, ops));
  }

  lemma EmptyFloored(cfg: Config)
    ensures Floored(cfg, Empty())
  {
  }
}
