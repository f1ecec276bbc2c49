/** What the frequency of a key counts. */
module Frequency {
  import opened Basics
  import opened GdsfModel
  import opened GdsfPaths
  import Aging
  import Eviction

  function Count<T(==)>(xs: seq<T>, x: T): (n: nat) {
    if |xs| == 0 then 0 else (if xs[0] == x then 1 else 0) + Count(xs[1..], x)
  }

  lemma MoveFreq(cfg: Config, s: Cache, m: Move, k: Key)
    requires Valid(cfg, s) && Enabled(cfg, s, m) && k in s.data && k in s.freq
    requires m != Drop(k) && (m.EvictOne? ==> Victim(cfg, s).key != k)
    ensures var t := Apply(cfg, s, m);
      k in t.data && k in t.freq && t.freq[k] == s.freq[k] + if m == Hit(k) then 1 else 0
  {
    hide Valid, Evict, Victim, Weight, Priority;
    if m.EvictOne? {
      Eviction.EvictTakesVictim(cfg, s);
    }
  }

  lemma {:induction false} PathFreq(cfg: Config, s: Cache, ms: seq<Move>, t: Cache, k: Key)
    requires Valid(cfg, s) && Path(cfg, s, ms, t) && k in s.data && k in s.freq
    requires Drop(k) !in ms && k !in Aging.Evicted(cfg, s, ms)
    ensures k in t.data && k in t.freq && t.freq[k] == s.freq[k] + Count(ms, Hit(k))
    decreases |ms|
  {
    hide Valid, Apply, Enabled, Victim;
    if |ms| != 0 {
      var u := Apply(cfg, s, ms[0]);
      var first := if ms[0].EvictOne? then [Victim(cfg, s).key] else [];
      assert Aging.Evicted(cfg, s, ms) == first + Aging.Evicted(cfg, u, ms[1..]);
      assert ms[0].EvictOne? ==> first[0] in Aging.Evicted(cfg, s, ms);
      MoveFreq(cfg, s, ms[0], k);
      PathFreq(cfg, u, ms[1..], t, k);
    }
  }

  lemma {:induction false} NoneCounted<T>(xs: seq<T>, x: T)
    requires x !in xs
    ensures Count(xs, x) == 0
  {
    if |xs| != 0 {
      NoneCounted(xs[1..], x);
    }
  }

  /** The keys evicted between two states of a run. */
  function Since(s: Cache, t: Cache): seq<Key> {
    if |s.past.evicted| <= |t.past.evicted| then t.past.evicted[|s.past.evicted|..] else []
  }

  lemma StepFreq(cfg: Config, s: Cache, op: Op, k: Key)
    requires Valid(cfg, s) && Progressive(cfg) && k in s.data && k in s.freq && op != Del(k)
    requires k !in Since(s, Step(cfg, s, op))
    ensures var t := Step(cfg, s, op);
      k in t.data && k in t.freq && t.freq[k] == s.freq[k] + if op == Get(k) then 1 else 0
  {
    hide Valid, SetItem, DelItem, Popitem, Path, Aging.Evicted;
    if op != Get(k) {
      var ms := StepPath(cfg, s, op);
      Aging.PathEvicts(cfg, s, ms, Step(cfg, s, op));
      assert Hit(k) !in ms && Drop(k) !in ms;
      NoneCounted(ms, Hit(k));
      PathFreq(cfg, s, ms, Step(cfg, s, op), k);
    }
  }

  lemma StepExtends(cfg: Config, s: Cache, op: Op)
    requires Valid(cfg, s) && Progressive(cfg)
    ensures s.past.evicted <= Step(cfg, s, op).past.evicted
  {
    hide Valid, Step, Path, Aging.Evicted;
    var ms := StepPath(cfg, s, op);
    Aging.PathEvicts(cfg, s, ms, Step(cfg, s, op));
  }

  lemma {:induction false} RunExtends(cfg: Config, s: Cache, ops: seq<Op>)
    requires Valid(cfg, s) && Progressive(cfg)
    ensures s.past.evicted <= Run(cfg, s, ops).past.evicted
    decreases |ops|
  {
    hide Valid, Step;
    if |ops| != 0 {
      StepExtends(cfg, s, ops[0]);
      RunExtends(cfg, Step(cfg, s, ops[0]), ops[1..]);
    }
  }

  /** A key that stays resident gains exactly one frequency per read: overwriting its value,
      and whatever happens to other keys, leaves the count alone. */
  lemma {:induction false} FrequencyCountsReads(cfg: Config, s: Cache, ops: seq<Op>, k: Key)
    requires Valid(cfg, s) && Progressive(cfg) && k in s.data && k in s.freq
    requires Del(k) !in ops
    requires k !in Since(s, Run(cfg, s, ops))
    ensures var t := Run(cfg, s, ops);
      k in t.data && k in t.freq && t.freq[k] == s.freq[k] + Count(ops, Get(k))
    decreases |ops|
  {
    hide Valid, Step;
    if |ops| != 0 {
      var u := Step(cfg, s, ops[0]);
      var t := Run(cfg, u, ops[1..]);
      StepExtends(cfg, s, ops[0]);
      RunExtends(cfg, u, ops[1..]);
      var a, b, c := |s.past.evicted|, |u.past.evicted|, t.past.evicted;
      assert forall i :: a <= i < b ==> u.past.evicted[i] == c[a..][i - a];
      assert forall i :: b <= i < |c| ==> c[i] == c[a..][i - a];
      StepFreq(cfg, s, ops[0], k);
      FrequencyCountsReads(cfg, u, ops[1..], k);
    }
  }
}
