/** gptcache/similarity_evaluation/sequence_match.py: the weighted score of two
    conversations, given the normalised embeddings of their turns. */
module SequenceMatch {

  type Embedding = seq<real>

  datatype Score = Value(score: real) | AssertionError | ZeroDivisionError

  // ---------- distance ----------

  function Mul(x: real, y: real): real {
    x * y
  }

  function Square(x: real): (r: real)
    ensures r >= 0.0
  {
    x * x
  }

  function Norm2(a: Embedding): real {
    if |a| == 0 then 0.0 else Square(a[0]) + Norm2(a[1..])
  }

  /** `euclidean_distance_calculate`: the squared distance. */
  function Distance(a: Embedding, b: Embedding): (d: real)
    requires |a| == |b|
    ensures d >= 0.0
  {
    if |a| == 0 then 0.0 else Square(a[0] - b[0]) + Distance(a[1..], b[1..])
  }

  function SumNorm2(a: Embedding, b: Embedding): (d: real)
    requires |a| == |b|
    ensures d >= 0.0
  {
    if |a| == 0 then 0.0 else Square(a[0] + b[0]) + SumNorm2(a[1..], b[1..])
  }

  lemma {:induction false} Parallelogram(a: Embedding, b: Embedding)
    requires |a| == |b|
    ensures Distance(a, b) + SumNorm2(a, b) == 2.0 * Norm2(a) + 2.0 * Norm2(b)
  {
    if |a| > 0 {
      Parallelogram(a[1..], b[1..]);
      SquareOfSums(a[0], b[0]);
    }
  }

  lemma SquareOfSums(x: real, y: real)
    ensures Square(x - y) + Square(x + y) == 2.0 * Square(x) + 2.0 * Square(y)
  {
  }

  predicate Unit(a: Embedding) {
    Norm2(a) == 1.0
  }

  /** Two unit vectors of any dimension are at squared distance at most 4. */
  lemma UnitDistance(a: Embedding, b: Embedding)
    requires |a| == |b| && Unit(a) && Unit(b)
    ensures 0.0 <= Distance(a, b) <= 4.0
  {
    Parallelogram(a, b);
  }

  lemma {:induction false} SelfDistance(a: Embedding)
    ensures Distance(a, a) == 0.0
  {
    if |a| > 0 {
      SelfDistance(a[1..]);
    }
  }

  // ---------- weights ----------

  function Sum(ws: seq<real>): real {
    if |ws| == 0 then 0.0 else Sum(ws[..|ws| - 1]) + ws[|ws| - 1]
  }

  predicate NonNegative(ws: seq<real>) {
    forall i :: 0 <= i < |ws| ==> ws[i] >= 0.0
  }

  function Reversed<T>(xs: seq<T>): (r: seq<T>)
    ensures |r| == |xs|
    ensures forall i :: 0 <= i < |xs| ==> r[i] == xs[|xs| - 1 - i]
  {
    seq(|xs|, i requires 0 <= i < |xs| => xs[|xs| - 1 - i])
  }

  function Scaled(ws: seq<real>, f: real): (r: seq<real>)
    ensures |r| == |ws|
  {
    seq(|ws|, i requires 0 <= i < |ws| => Mul(ws[i], f))
  }

  lemma {:induction false} SumScaled(ws: seq<real>, f: real)
    ensures Sum(Scaled(ws, f)) == Sum(ws) * f
  {
    hide Mul;
    if |ws| > 0 {
      var front := ws[..|ws| - 1];
      SumScaled(front, f);
      assert Scaled(ws, f)[..|ws| - 1] == Scaled(front, f);
      Distribute(Sum(front), ws[|ws| - 1], f);
    }
  }

  lemma Distribute(x: real, y: real, f: real)
    ensures (x + y) * f == x * f + Mul(y, f)
  {
  }

  datatype Weights = Ok(ws: seq<real>) | DividesByZero

  /** All weights when there are enough turns, otherwise the first `length`, rescaled. */
  function Reweighted(ws: seq<real>, length: nat): Weights {
    if length >= |ws| then Ok(ws)
    else if length > 0 && Sum(ws[..length]) == 0.0 then DividesByZero
    else if length == 0 then Ok([])
    else Ok(Scaled(ws[..length], 1.0 / Sum(ws[..length])))
  }

  method Reweight(weights: seq<real>, length: nat) returns (r: Weights)
    ensures r == Reweighted(weights, length)
  {
    if length >= |weights| {
      return Ok(weights);
    }
    hide Mul;
    var sum := 0.0;
    for i := 0 to length
      invariant sum == Sum(weights[..i])
    {
      assert weights[..i + 1][..i] == weights[..i];
      sum := sum + weights[i];
    }
    var ws: seq<real> := [];
    for i := 0 to length
      invariant |ws| == i && (i > 0 ==> sum != 0.0)
      invariant sum != 0.0 ==> ws == Scaled(weights[..length], 1.0 / sum)[..i]
    {
      if sum == 0.0 {
        return DividesByZero;
      }
      ws := ws + [Mul(weights[i], 1.0 / sum)];
    }
    r := Ok(ws);
  }

  /** Rescaled weights sum to 1. */
  lemma ReweightedSum(ws: seq<real>, length: nat)
    requires 0 < length < |ws| && Sum(ws[..length]) != 0.0
    ensures Reweighted(ws, length).Ok? && Sum(Reweighted(ws, length).ws) == 1.0
  {
    var total := Sum(ws[..length]);
    SumScaled(ws[..length], 1.0 / total);
    assert total * (1.0 / total) == 1.0;
  }

  // ---------- the score ----------

  function Weighted(src: seq<Embedding>, cached: seq<Embedding>, ws: seq<real>, n: nat): real
    requires n <= |src| && n <= |cached| && n <= |ws|
    requires forall i :: 0 <= i < n ==> |src[i]| == |cached[i]|
  {
    if n == 0 then 0.0
    else Weighted(src, cached, ws, n - 1) + (4.0 - Distance(src[n - 1], cached[n - 1])) * ws[n - 1]
  }

  function Min(a: nat, b: nat): nat {
    if a <= b then a else b
  }

  function Length(src: seq<Embedding>, cached: seq<Embedding>, weights: seq<real>): nat {
    Min(Min(|src|, |cached|), |weights|)
  }

  /** All turns are embedded in the same space. */
  predicate SameSpace(src: seq<Embedding>, cached: seq<Embedding>) {
    forall a, b :: a in src && b in cached ==> |a| == |b|
  }

  function Evaluate(weights: seq<real>, src: seq<Embedding>, cached: seq<Embedding>): Score
    requires SameSpace(src, cached)
  {
    var n := Length(src, cached, weights);
    if n == 0 then AssertionError
    else match Reweighted(Reversed(weights), n)
      case DividesByZero => ZeroDivisionError
      case Ok(ws) =>
        AllInSpace(src, cached, n);
        Value(Weighted(Reversed(src), Reversed(cached), ws, n))
  }

  lemma AllInSpace(src: seq<Embedding>, cached: seq<Embedding>, n: nat)
    requires SameSpace(src, cached) && n <= |src| && n <= |cached|
    ensures forall i :: 0 <= i < n ==> |Reversed(src)[i]| == |Reversed(cached)[i]|
  {
    forall i | 0 <= i < n
      ensures |Reversed(src)[i]| == |Reversed(cached)[i]|
    {
      assert Reversed(src)[i] in src && Reversed(cached)[i] in cached;
    }
  }

  method Evaluation(weights: seq<real>, src: seq<Embedding>, cached: seq<Embedding>) returns (r: Score)
    requires SameSpace(src, cached)
    ensures r == Evaluate(weights, src, cached)
  {
    hide Distance, Reweighted;
    var length := Length(src, cached, weights);
    if length == 0 {
      return AssertionError;
    }
    var ws := Reweight(Reversed(weights), length);
    if ws.DividesByZero? {
      return ZeroDivisionError;
    }
    var srcs, cacheds := Reversed(src), Reversed(cached);
    AllInSpace(src, cached, length);
    var sum := 0.0;
    EnoughWeights(Reversed(weights), length);
    for i := 0 to length
      invariant sum == Weighted(srcs, cacheds, ws.ws, i)
    {
      sum := sum + (4.0 - Distance(srcs[i], cacheds[i])) * ws.ws[i];
    }
    r := Value(sum);
  }

  lemma EnoughWeights(ws: seq<real>, length: nat)
    requires length <= |ws|
    ensures Reweighted(ws, length).Ok? ==> |Reweighted(ws, length).ws| == length
  {
  }

  lemma {:induction false} WeightedRange(src: seq<Embedding>, cached: seq<Embedding>, ws: seq<real>, n: nat)
    requires n <= |src| && n <= |cached| && n <= |ws| && NonNegative(ws)
    requires forall i :: 0 <= i < n ==> |src[i]| == |cached[i]| && Unit(src[i]) && Unit(cached[i])
    ensures 0.0 <= Weighted(src, cached, ws, n) <= 4.0 * Sum(ws[..n])
    decreases n
  {
    hide Distance, Norm2;
    if n > 0 {
      WeightedRange(src, cached, ws, n - 1);
      UnitDistance(src[n - 1], cached[n - 1]);
      assert ws[..n][..n - 1] == ws[..n - 1];
      Bounded(4.0 - Distance(src[n - 1], cached[n - 1]), ws[n - 1]);
    }
  }

  lemma Bounded(x: real, w: real)
    requires 0.0 <= x <= 4.0 && w >= 0.0
    ensures 0.0 <= x * w <= 4.0 * w
  {
    assert 4.0 * w - x * w == (4.0 - x) * w;
  }

  lemma {:induction false} WeightedSelf(src: seq<Embedding>, ws: seq<real>, n: nat)
    requires n <= |src| && n <= |ws|
    ensures Weighted(src, src, ws, n) == 4.0 * Sum(ws[..n])
    decreases n
  {
    if n > 0 {
      WeightedSelf(src, ws, n - 1);
      SelfDistance(src[n - 1]);
      assert ws[..n][..n - 1] == ws[..n - 1];
    }
  }

  predicate AllUnit(es: seq<Embedding>) {
    forall e :: e in es ==> Unit(e)
  }

  /** The weights that end up being used. */
  function Effective(weights: seq<real>, n: nat): Weights {
    Reweighted(Reversed(weights), n)
  }

  /** For unit embeddings of any dimension and non-negative weights, a score lies between 0
      and four times the weight in use, and the upper end is reached by a conversation
      compared with itself. */
  lemma ScoreRange(weights: seq<real>, src: seq<Embedding>, cached: seq<Embedding>)
    requires SameSpace(src, cached) && AllUnit(src) && AllUnit(cached) && NonNegative(weights)
    requires Evaluate(weights, src, cached).Value?
    ensures var ws := Effective(weights, Length(src, cached, weights));
      && ws.Ok? && 0.0 <= Evaluate(weights, src, cached).score <= 4.0 * Sum(ws.ws)
      && (src == cached ==> Evaluate(weights, src, cached).score == 4.0 * Sum(ws.ws))
  {
    hide Distance, Norm2, Unit;
    var n := Length(src, cached, weights);
    AllInSpace(src, cached, n);
    var ws := Effective(weights, n).ws;
    EnoughWeights(Reversed(weights), n);
    EffectiveNonNegative(weights, n);
    var a, b := Reversed(src), Reversed(cached);
    forall i | 0 <= i < n
      ensures Unit(a[i]) && Unit(b[i])
    {
      assert a[i] in src && b[i] in cached;
    }
    WeightedRange(a, b, ws, n);
    assert ws[..n] == ws;
    if src == cached {
      WeightedSelf(a, ws, n);
    }
  }

  lemma EffectiveNonNegative(weights: seq<real>, n: nat)
    requires NonNegative(weights) && 0 < n <= |weights| && Effective(weights, n).Ok?
    ensures NonNegative(Effective(weights, n).ws)
  {
    var rev := Reversed(weights);
    if n < |weights| {
      var total := Sum(rev[..n]);
      SumNonNegative(rev[..n]);
      assert total > 0.0 && 1.0 / total > 0.0;
      forall i | 0 <= i < n
        ensures Effective(weights, n).ws[i] >= 0.0
      {
        assert rev[i] >= 0.0;
        assert Mul(rev[i], 1.0 / total) >= 0.0;
      }
    }
  }

  lemma {:induction false} SumNonNegative(ws: seq<real>)
    requires NonNegative(ws)
    ensures Sum(ws) >= 0.0
  {
    if |ws| > 0 {
      SumNonNegative(ws[..|ws| - 1]);
    }
  }

  lemma {:induction false} SumReversed(ws: seq<real>)
    ensures Sum(Reversed(ws)) == Sum(ws)
  {
    if |ws| > 0 {
      var tail := ws[1..];
      SumReversed(tail);
      assert Reversed(ws)[..|ws| - 1] == Reversed(tail);
      SumSplit(ws);
    }
  }

  lemma {:induction false} SumSplit(ws: seq<real>)
    requires |ws| > 0
    ensures Sum(ws) == ws[0] + Sum(ws[1..])
    decreases |ws|
  {
    if |ws| > 1 {
      SumSplit(ws[..|ws| - 1]);
      assert ws[..|ws| - 1][1..] == ws[1..][..|ws| - 2];
    }
  }

  /** Inside [0, 4] whatever the other conversation, if and only if a weight is left out
      (and the rest rescaled) or the weights sum to at most 1. */
  lemma DeclaredRangeIff(weights: seq<real>, src: seq<Embedding>)
    requires SameSpace(src, src) && AllUnit(src) && NonNegative(weights)
    ensures (forall cached :: SameSpace(src, cached) && AllUnit(cached) && Evaluate(weights, src, cached).Value? ==>
               0.0 <= Evaluate(weights, src, cached).score <= 4.0)
        <==> |src| < |weights| || Sum(weights) <= 1.0
  {
    hide Distance, Norm2, Unit, Weighted, Reweighted;
    if |src| < |weights| || Sum(weights) <= 1.0 {
      forall cached | SameSpace(src, cached) && AllUnit(cached) && Evaluate(weights, src, cached).Value?
        ensures 0.0 <= Evaluate(weights, src, cached).score <= 4.0
      {
        ScoreRange(weights, src, cached);
        EffectiveSum(weights, Length(src, cached, weights));
      }
    } else {
      AllWeightsUsed(weights, src);
      ScoreRange(weights, src, src);
      EffectiveSum(weights, |weights|);
    }
  }

  lemma AllWeightsUsed(weights: seq<real>, src: seq<Embedding>)
    requires SameSpace(src, src) && |src| >= |weights| && Sum(weights) > 0.0
    ensures Length(src, src, weights) == |weights| > 0 && Evaluate(weights, src, src).Value?
  {
  }

  lemma EffectiveSum(weights: seq<real>, n: nat)
    requires 0 < n <= |weights| && Effective(weights, n).Ok?
    ensures Sum(Effective(weights, n).ws) == if n < |weights| then 1.0 else Sum(weights)
  {
    if n < |weights| {
      ReweightedSum(Reversed(weights), n);
    } else {
      SumReversed(weights);
    }
  }
}
