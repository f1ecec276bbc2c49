/** The no-aging ablation of benchmarks/ablation.py. */
module Ablation {
  import opened Basics
  import opened GdsfModel
  import opened GdsfPaths
  import Aging
  import Eviction

  /** Without aging, a priority is frequency times cost over size, nothing more. */
  ghost predicate Ageless(cfg: Config, s: Cache) {
    && cfg.variant == NoAging && s.inflation == 0.0
    && s.prio.Keys == s.data.Keys && s.freq.Keys == s.data.Keys
    && forall k :: k in s.data ==> s.prio[k] == Weight(cfg, s.freq[k], s.data[k])
  }

  lemma MoveAgeless(cfg: Config, s: Cache, m: Move)
    requires Valid(cfg, s) && Enabled(cfg, s, m) && Ageless(cfg, s)
    ensures Ageless(cfg, Apply(cfg, s, m))
  {
    hide Valid, Evict, Weight, Priority;
    match m
    case EvictOne =>
      Eviction.EvictTakesVictim(cfg, s);
    case Put(k, v) =>
      AgelessPriority(cfg, s.inflation, Store(cfg, s, k, v).freq[k], v);
    case Hit(k) =>
      AgelessPriority(cfg, s.inflation, Touch(s, k).freq[k], s.data[k]);
    case _ =>
  }

  lemma AgelessPriority(cfg: Config, inflation: real, freq: nat, v: Value)
    requires cfg.variant == NoAging
    ensures Priority(cfg, inflation, freq, v) == Weight(cfg, freq, v)
  {
    hide Weight;
  }

  lemma {:induction false} PathAgeless(cfg: Config, s: Cache, ms: seq<Move>, t: Cache)
    requires Valid(cfg, s) && Path(cfg, s, ms, t) && Ageless(cfg, s)
    ensures Ageless(cfg, t)
    decreases |ms|
  {
    hide Valid, Apply, Enabled, Ageless;
    if |ms| != 0 {
      MoveAgeless(cfg, s, ms[0]);
      PathAgeless(cfg, Apply(cfg, s, ms[0]), ms[1..], t);
    }
  }

  /** In every run the aging value is 0 between operations. */
  lemma RunAgeless(cfg: Config, ops: seq<Op>)
    requires cfg.variant == NoAging && Progressive(cfg)
    ensures Ageless(cfg, Reached(cfg, ops))
  {
    EmptyValid(cfg);
    hide Valid, Run;
    var ms := RunPath(cfg, Empty(), ops);
    PathAgeless(cfg, Empty(), ms, Run(cfg, Empty(), ops));
  }

  /** `v` minimises frequency times cost over size (`Weight`, outside the cost-only
      variant) among the residents. */
  ghost predicate LeastProduct(cfg: Config, s: Cache, v: Key) {
    && v in s.data && s.freq.Keys == s.data.Keys
    && forall k :: k in s.data ==> Weight(cfg, s.freq[v], s.data[v]) <= Weight(cfg, s.freq[k], s.data[k])
  }

  /** No resident of the same positive density is used less than `v`. */
  ghost predicate LeastUsed(cfg: Config, s: Cache, v: Key) {
    && v in s.data && s.freq.Keys == s.data.Keys
    && forall k :: k in s.data && Density(cfg, s.data[k]) == Density(cfg, s.data[v]) > 0.0 ==> s.freq[v] <= s.freq[k]
  }

  lemma AgelessVictim(cfg: Config, s: Cache)
    requires Valid(cfg, s) && s.data != map[] && Ageless(cfg, s)
    ensures LeastProduct(cfg, s, Victim(cfg, s).key) && LeastUsed(cfg, s, Victim(cfg, s).key)
  {
    hide Valid, Victim, Weight, Density;
    Eviction.VictimResides(cfg, s);
    var v := Victim(cfg, s).key;
    forall k | k in s.data
      ensures Weight(cfg, s.freq[v], s.data[v]) <= Weight(cfg, s.freq[k], s.data[k])
      ensures Density(cfg, s.data[k]) == Density(cfg, s.data[v]) > 0.0 ==> s.freq[v] <= s.freq[k]
    {
      if Density(cfg, s.data[k]) == Density(cfg, s.data[v]) > 0.0 {
        FreqOrder(cfg, s.freq[v], s.data[v], s.freq[k], s.data[k]);
      }
    }
  }

  /** Every eviction along the path, inside a batch or not, takes such a key. */
  ghost predicate EachTakesLeast(cfg: Config, s: Cache, ms: seq<Move>)
    requires Valid(cfg, s)
    decreases |ms|
  {
    |ms| > 0 && Enabled(cfg, s, ms[0]) ==>
      && (ms[0].EvictOne? ==> LeastProduct(cfg, s, Victim(cfg, s).key) && LeastUsed(cfg, s, Victim(cfg, s).key))
      && EachTakesLeast(cfg, Apply(cfg, s, ms[0]), ms[1..])
  }

  lemma {:induction false} PathTakesLeast(cfg: Config, s: Cache, ms: seq<Move>)
    requires Valid(cfg, s) && Ageless(cfg, s)
    ensures EachTakesLeast(cfg, s, ms)
    decreases |ms|
  {
    hide Valid, Apply, Ageless, LeastProduct, LeastUsed, Victim;
    if |ms| > 0 && Enabled(cfg, s, ms[0]) {
      if ms[0].EvictOne? {
        AgelessVictim(cfg, s);
      }
      MoveAgeless(cfg, s, ms[0]);
      PathTakesLeast(cfg, Apply(cfg, s, ms[0]), ms[1..]);
    }
  }

  /** Every victim of every run, later victims of a batch included: it minimises frequency
      times cost over size, and among residents of the same positive density it is least
      frequently used, so under equal costs this is plain LFU. */
  lemma EveryVictimIsLeast(cfg: Config, ops: seq<Op>) returns (ms: seq<Move>)
    requires cfg.variant == NoAging && Progressive(cfg)
    ensures Valid(cfg, Empty()) && Path(cfg, Empty(), ms, Reached(cfg, ops)) && AllFrom(ops, ms)
    ensures Reached(cfg, ops).past.evicted == Aging.Evicted(cfg, Empty(), ms)
    ensures EachTakesLeast(cfg, Empty(), ms)
  {
    EmptyValid(cfg);
    hide Valid, Run, Path, LeastProduct, LeastUsed;
    ms := RunPath(cfg, Empty(), ops);
    Aging.PathEvicts(cfg, Empty(), ms, Run(cfg, Empty(), ops));
    PathTakesLeast(cfg, Empty(), ms);
  }

  /** After any run, what goes next is a resident that minimises frequency times cost over
      size. */
  lemma RunEvictsLeastProduct(cfg: Config, ops: seq<Op>)
    requires cfg.variant == NoAging && Progressive(cfg) && Reached(cfg, ops).data != map[]
    ensures LeastProduct(cfg, Reached(cfg, ops), Victim(cfg, Reached(cfg, ops)).key)
    ensures LeastUsed(cfg, Reached(cfg, ops), Victim(cfg, Reached(cfg, ops)).key)
  {
    hide Valid, Reached, Ageless;
    RunAgeless(cfg, ops);
    AgelessVictim(cfg, Reached(cfg, ops));
  }

  lemma FreqOrder(cfg: Config, a: nat, v: Value, b: nat, w: Value)
    requires Density(cfg, v) == Density(cfg, w) > 0.0
    requires cfg.variant == NoAging && Weight(cfg, a, v) <= Weight(cfg, b, w)
    ensures a <= b
  {
    hide Weight, Density;
    WeightIsProduct(cfg, a, v);
    WeightIsProduct(cfg, b, w);
    OrderCancels(a as real, b as real, Density(cfg, v));
  }

  lemma OrderCancels(x: real, y: real, d: real)
    requires d > 0.0 && x * d <= y * d
    ensures x <= y
  {
    ProductSign(y - x, d);
    assert (y - x) * d == y * d - x * d;
  }

  lemma ProductSign(a: real, d: real)
    requires d > 0.0
    ensures a * d >= 0.0 <==> a >= 0.0
  {
    if a >= 0.0 {
      assert a * d >= 0.0;
    } else {
      assert a * d < 0.0;
    }
  }
}
