/** Which turns of two conversations the score compares, and with which weight: a reference
    definition that runs forwards over the most recent turns, and its consequences. */
module SequencePairs {
  import opened SequenceMatch

  /** The last `n` elements. */
  function Recent<T>(xs: seq<T>, n: nat): (r: seq<T>)
    requires n <= |xs|
    ensures |r| == n
  {
    xs[|xs| - n..]
  }

  /** The squared distance adds up over the coordinates. */
  lemma {:induction false} DistanceAdds(a: Embedding, b: Embedding, c: Embedding, d: Embedding)
    requires |a| == |b| && |c| == |d|
    ensures |a + c| == |b + d| && Distance(a + c, b + d) == Distance(a, b) + Distance(c, d)
    ensures |c| == 1 ==> Distance(c, d) == (c[0] - d[0]) * (c[0] - d[0])
    decreases |a|
  {
    if |a| == 0 {
      assert a + c == c && b + d == d;
    } else {
      assert (a + c)[1..] == a[1..] + c && (b + d)[1..] == b[1..] + d;
      DistanceAdds(a[1..], b[1..], c, d);
    }
    if |c| == 1 {
      assert Distance(c[1..], d[1..]) == 0.0;
    }
  }

  /** Turn by turn, 4 less the squared distance. */
  function Closeness(a: seq<Embedding>, b: seq<Embedding>): (r: seq<real>)
    requires |a| == |b| && forall i :: 0 <= i < |a| ==> |a[i]| == |b[i]|
    ensures |r| == |a|
  {
    seq(|a|, i requires 0 <= i < |a| => 4.0 - Distance(a[i], b[i]))
  }

  /** The sum of the products. */
  function Dot(xs: seq<real>, ws: seq<real>): real
    requires |xs| == |ws|
  {
    if |xs| == 0 then 0.0 else Mul(xs[0], ws[0]) + Dot(xs[1..], ws[1..])
  }

  function Over(x: real, d: real): real
    requires d != 0.0
  {
    x / d
  }

  /** The turns compared: as many as both conversations and the weights have. */
  function Compared(weights: seq<real>, src: seq<Embedding>, cached: seq<Embedding>): (n: nat)
    ensures n <= |src| && n <= |cached| && n <= |weights|
    ensures n == |src| || n == |cached| || n == |weights|
  {
    if |src| <= |cached| && |src| <= |weights| then |src| else if |cached| <= |weights| then |cached| else |weights|
  }

  lemma RecentSameSpace(src: seq<Embedding>, cached: seq<Embedding>, n: nat)
    requires SameSpace(src, cached) && n <= |src| && n <= |cached|
    ensures forall i :: 0 <= i < n ==> |Recent(src, n)[i]| == |Recent(cached, n)[i]|
  {
    forall i | 0 <= i < n
      ensures |Recent(src, n)[i]| == |Recent(cached, n)[i]|
    {
      assert Recent(src, n)[i] in src && Recent(cached, n)[i] in cached;
    }
  }

  /** The score by reference: the recent turns, oldest of them first, each with its own weight,
      over the sum of those weights if some weights are left out. */
  function Reference(weights: seq<real>, src: seq<Embedding>, cached: seq<Embedding>): Score
    requires SameSpace(src, cached)
  {
    var n := Compared(weights, src, cached);
    RecentSameSpace(src, cached, n);
    if n == 0 then AssertionError
    else
      var ws := Recent(weights, n);
      if n == |weights| then Value(Dot(Closeness(Recent(src, n), Recent(cached, n)), ws))
      else if Sum(ws) == 0.0 then ZeroDivisionError
      else Value(Over(Dot(Closeness(Recent(src, n), Recent(cached, n)), ws), Sum(ws)))
  }

  // ---------- the loop over reversed turns is this sum ----------

  lemma WeightedLast(a: seq<Embedding>, b: seq<Embedding>, ws: seq<real>, n: nat)
    requires 0 < n <= |a| && n <= |b| && n <= |ws| && forall i :: 0 <= i < n ==> |a[i]| == |b[i]|
    ensures Weighted(a, b, ws, n) == Mul(4.0 - Distance(a[n - 1], b[n - 1]), ws[n - 1]) + Weighted(a, b, ws, n - 1)
  {
    hide Distance;
  }

  lemma DotFirst(xs: seq<real>, ws: seq<real>)
    requires |xs| == |ws| > 0
    ensures Dot(xs, ws) == Mul(xs[0], ws[0]) + Dot(xs[1..], ws[1..])
  {
    hide Mul;
  }

  lemma ClosenessTail(a: seq<Embedding>, b: seq<Embedding>)
    requires |a| == |b| > 0 && forall i :: 0 <= i < |a| ==> |a[i]| == |b[i]|
    ensures forall i :: 0 <= i < |a[1..]| ==> |a[1..][i]| == |b[1..][i]|
    ensures Closeness(a, b)[1..] == Closeness(a[1..], b[1..]) && Closeness(a, b)[0] == 4.0 - Distance(a[0], b[0])
  {
    hide Distance;
    forall i | 0 <= i < |a[1..]|
      ensures |a[1..][i]| == |b[1..][i]|
    {
      assert a[1..][i] == a[i + 1] && b[1..][i] == b[i + 1];
    }
  }

  lemma RecentStep<T>(xs: seq<T>, n: nat)
    requires 0 < n <= |xs|
    ensures Recent(xs, n)[1..] == Recent(xs, n - 1) && Recent(xs, n)[0] == Reversed(xs)[n - 1]
    ensures var a, b := Recent(xs, n - 1), Recent(xs, n);
      forall i :: 0 <= i < |a| ==> a[i] == b[i + 1]
  {
  }

  lemma ReversedSameSpace(src: seq<Embedding>, cached: seq<Embedding>, n: nat)
    requires n <= |src| && n <= |cached|
    requires forall i :: 0 <= i < n ==> |Recent(src, n)[i]| == |Recent(cached, n)[i]|
    ensures forall i :: 0 <= i < n ==> |Reversed(src)[i]| == |Reversed(cached)[i]|
  {
    forall i | 0 <= i < n
      ensures |Reversed(src)[i]| == |Reversed(cached)[i]|
    {
      assert Reversed(src)[i] == Recent(src, n)[n - 1 - i] && Reversed(cached)[i] == Recent(cached, n)[n - 1 - i];
    }
  }

  lemma {:induction false} BackwardsIsForwards(src: seq<Embedding>, cached: seq<Embedding>, ws: seq<real>, n: nat)
    requires n <= |src| && n <= |cached| && n <= |ws|
    requires forall i :: 0 <= i < n ==> |Recent(src, n)[i]| == |Recent(cached, n)[i]|
    ensures forall i :: 0 <= i < n ==> |Reversed(src)[i]| == |Reversed(cached)[i]|
    ensures Weighted(Reversed(src), Reversed(cached), Reversed(ws), n)
         == Dot(Closeness(Recent(src, n), Recent(cached, n)), Recent(ws, n))
    decreases n
  {
    hide Distance, Mul, Weighted, Dot, Closeness, Recent, Reversed;
    ReversedSameSpace(src, cached, n);
    if n > 0 {
      RecentStep(src, n);
      RecentStep(cached, n);
      RecentStep(ws, n);
      BackwardsIsForwards(src, cached, ws, n - 1);
      WeightedLast(Reversed(src), Reversed(cached), Reversed(ws), n);
      ClosenessTail(Recent(src, n), Recent(cached, n));
      DotFirst(Closeness(Recent(src, n), Recent(cached, n)), Recent(ws, n));
    } else {
      EmptySums(Reversed(src), Reversed(cached), Reversed(ws), Closeness(Recent(src, 0), Recent(cached, 0)), Recent(ws, 0));
    }
  }

  lemma EmptySums(a: seq<Embedding>, b: seq<Embedding>, ws: seq<real>, xs: seq<real>, us: seq<real>)
    requires |xs| == |us| == 0
    ensures Weighted(a, b, ws, 0) == 0.0 == Dot(xs, us)
  {
  }

  /** Rescaling every weight rescales the sum. */
  lemma {:induction false} WeightedScaled(a: seq<Embedding>, b: seq<Embedding>, ws: seq<real>, f: real, n: nat)
    requires n <= |a| && n <= |b| && n <= |ws|
    requires forall i :: 0 <= i < n ==> |a[i]| == |b[i]|
    ensures Weighted(a, b, Scaled(ws, f), n) == Mul(Weighted(a, b, ws, n), f)
    decreases n
  {
    hide Distance;
    if n > 0 {
      WeightedScaled(a, b, ws, f, n - 1);
      OneTerm(Weighted(a, b, ws, n - 1), 4.0 - Distance(a[n - 1], b[n - 1]), ws[n - 1], f);
    }
  }

  lemma OneTerm(sum: real, x: real, w: real, f: real)
    ensures Mul(sum, f) + x * Mul(w, f) == Mul(sum + x * w, f)
  {
    assert x * (w * f) == (x * w) * f;
    assert sum * f + (x * w) * f == (sum + x * w) * f;
  }

  lemma {:induction false} WeightedPrefix(a: seq<Embedding>, b: seq<Embedding>, ws: seq<real>, us: seq<real>, n: nat)
    requires n <= |a| && n <= |b| && n <= |ws| && n <= |us|
    requires forall i :: 0 <= i < n ==> |a[i]| == |b[i]| && ws[i] == us[i]
    ensures Weighted(a, b, ws, n) == Weighted(a, b, us, n)
    decreases n
  {
    hide Distance;
    if n > 0 {
      WeightedPrefix(a, b, ws, us, n - 1);
    }
  }

  lemma RecentReversed(ws: seq<real>, n: nat)
    requires n <= |ws|
    ensures Reversed(ws)[..n] == Reversed(Recent(ws, n))
    ensures Sum(Reversed(ws)[..n]) == Sum(Recent(ws, n))
  {
    assert Reversed(ws)[..n] == Reversed(Recent(ws, n));
    SumReversed(Recent(ws, n));
  }

  lemma TimesInverse(x: real, d: real)
    requires d != 0.0
    ensures Mul(x, 1.0 / d) == x / d
  {
    var q := x / d;
    assert q * d == x;
    assert d * (1.0 / d) == 1.0;
    assert x * (1.0 / d) == (q * d) * (1.0 / d) == q * (d * (1.0 / d));
  }

  /** The score pairs the last turns with each other under the last weight, the ones before
      under the one before, and so on: on all inputs it is the reference, errors included. */
  lemma ScorePairsFromTheEnd(weights: seq<real>, src: seq<Embedding>, cached: seq<Embedding>)
    requires SameSpace(src, cached)
    ensures Evaluate(weights, src, cached) == Reference(weights, src, cached)
  {
    hide Distance, Mul, Weighted, Dot, Closeness, Sum;
    var n := Compared(weights, src, cached);
    assert Length(src, cached, weights) == n;
    if n > 0 {
      RecentSameSpace(src, cached, n);
      AllInSpace(src, cached, n);
      BackwardsIsForwards(src, cached, weights, n);
      RecentReversed(weights, n);
      if n < |weights| && Sum(Recent(weights, n)) != 0.0 {
        var total := Sum(Recent(weights, n));
        var a, b, ws := Reversed(src), Reversed(cached), Reversed(weights);
        WeightedScaled(a, b, ws[..n], 1.0 / total, n);
        WeightedPrefix(a, b, ws[..n], ws, n);
        TimesInverse(Weighted(a, b, ws, n), total);
      }
    }
  }

  // ---------- consequences ----------

  /** A turn in front of a conversation that already has as many as are compared does not
      change the score. */
  lemma OlderTurnsDoNotMatter(weights: seq<real>, src: seq<Embedding>, cached: seq<Embedding>, older: Embedding)
    requires SameSpace(src, cached)
    ensures SameSpace([older] + src, cached) && (|cached| <= |src| || |weights| <= |src|) ==>
      Evaluate(weights, [older] + src, cached) == Evaluate(weights, src, cached)
    ensures SameSpace(src, [older] + cached) && (|src| <= |cached| || |weights| <= |cached|) ==>
      Evaluate(weights, src, [older] + cached) == Evaluate(weights, src, cached)
  {
    hide Evaluate, Reference;
    ScorePairsFromTheEnd(weights, src, cached);
    if SameSpace([older] + src, cached) && (|cached| <= |src| || |weights| <= |src|) {
      ScorePairsFromTheEnd(weights, [older] + src, cached);
      SameReference(weights, src, cached, [older] + src, cached);
    }
    if SameSpace(src, [older] + cached) && (|src| <= |cached| || |weights| <= |cached|) {
      ScorePairsFromTheEnd(weights, src, [older] + cached);
      SameReference(weights, src, cached, src, [older] + cached);
    }
  }

  /** The reference looks only at the turns compared. */
  lemma SameReference(weights: seq<real>, a: seq<Embedding>, b: seq<Embedding>, c: seq<Embedding>, d: seq<Embedding>)
    requires SameSpace(a, b) && SameSpace(c, d)
    requires |a| <= |c| && a == c[|c| - |a|..] && |b| <= |d| && b == d[|d| - |b|..]
    requires Compared(weights, a, b) == Compared(weights, c, d)
    ensures Reference(weights, a, b) == Reference(weights, c, d)
  {
    hide Dot, Closeness, Sum, Over, SameSpace, Recent, Compared;
    RecentOfEnd(a, c, Compared(weights, a, b));
    RecentOfEnd(b, d, Compared(weights, a, b));
  }

  lemma RecentOfEnd<T>(a: seq<T>, c: seq<T>, n: nat)
    requires n <= |a| <= |c| && a == c[|c| - |a|..]
    ensures Recent(a, n) == Recent(c, n)
  {
  }

  lemma OneTerms(w: real, src: seq<Embedding>, cached: seq<Embedding>)
    requires SameSpace(src, cached) && |src| > 0 && |cached| > 0
    requires |src[|src| - 1]| == |cached[|cached| - 1]|
    ensures Evaluate([w], src, cached) == Value(Mul(4.0 - Distance(src[|src| - 1], cached[|cached| - 1]), w))
  {
    hide Evaluate, Distance, Sum, Dot, Closeness, Mul, Over, SameSpace;
    ScorePairsFromTheEnd([w], src, cached);
    var a, b := Recent(src, 1), Recent(cached, 1);
    RecentSameSpace(src, cached, 1);
    assert Recent([w], 1) == [w];
    DotOfOne(a, b, w);
  }

  lemma DotOfOne(a: seq<Embedding>, b: seq<Embedding>, w: real)
    requires |a| == |b| == 1 && |a[0]| == |b[0]|
    ensures Dot(Closeness(a, b), [w]) == Mul(4.0 - Distance(a[0], b[0]), w)
  {
    hide Distance, Mul;
    var xs := Closeness(a, b);
    DotFirst(xs, [w]);
    assert xs[1..] == [] && [w][1..] == [] && Dot([], []) == 0.0;
  }

  /** With one turn compared and one weight: 4 less the squared distance of the last turns,
      times the weight. */
  lemma OneTurn(w: real, src: seq<Embedding>, cached: seq<Embedding>)
    requires SameSpace(src, cached) && |src| > 0 && |cached| > 0
    requires |src[|src| - 1]| == |cached[|cached| - 1]|
    ensures Evaluate([w], src, cached) == Value((4.0 - Distance(src[|src| - 1], cached[|cached| - 1])) * w)
  {
    hide Evaluate, Distance, SameSpace;
    OneTerms(w, src, cached);
  }

  lemma TwoTerms(v: real, w: real, src: seq<Embedding>, cached: seq<Embedding>)
    requires SameSpace(src, cached) && |src| > 1 && |cached| > 1
    requires |src[|src| - 1]| == |cached[|cached| - 1]| && |src[|src| - 2]| == |cached[|cached| - 2]|
    ensures Evaluate([v, w], src, cached) ==
      Value(Mul(4.0 - Distance(src[|src| - 2], cached[|cached| - 2]), v)
            + Mul(4.0 - Distance(src[|src| - 1], cached[|cached| - 1]), w))
  {
    hide Evaluate, Distance, Sum, Dot, Closeness, Mul, Over, SameSpace;
    ScorePairsFromTheEnd([v, w], src, cached);
    var a, b := Recent(src, 2), Recent(cached, 2);
    RecentSameSpace(src, cached, 2);
    assert Recent([v, w], 2) == [v, w];
    DotOfTwo(a, b, v, w);
  }

  lemma DotOfTwo(a: seq<Embedding>, b: seq<Embedding>, v: real, w: real)
    requires |a| == |b| == 2 && |a[0]| == |b[0]| && |a[1]| == |b[1]|
    ensures Dot(Closeness(a, b), [v, w]) == Mul(4.0 - Distance(a[0], b[0]), v) + Mul(4.0 - Distance(a[1], b[1]), w)
  {
    hide Distance, Mul;
    var xs := Closeness(a, b);
    DotFirst(xs, [v, w]);
    DotFirst(xs[1..], [w]);
    assert [v, w][1..] == [w] && xs[1..][1..] == [] && [w][1..] == [] && Dot([], []) == 0.0;
  }

  /** With two turns and two weights: the last turns under the last weight, the ones before
      under the first. */
  lemma TwoTurns(v: real, w: real, src: seq<Embedding>, cached: seq<Embedding>)
    requires SameSpace(src, cached) && |src| > 1 && |cached| > 1
    requires |src[|src| - 1]| == |cached[|cached| - 1]| && |src[|src| - 2]| == |cached[|cached| - 2]|
    ensures Evaluate([v, w], src, cached) ==
      Value((4.0 - Distance(src[|src| - 2], cached[|cached| - 2])) * v
            + (4.0 - Distance(src[|src| - 1], cached[|cached| - 1])) * w)
  {
    hide Evaluate, Distance, SameSpace;
    TwoTerms(v, w, src, cached);
  }

  /** The last turns are compared, not the first. */
  lemma LastTurnsAgree()
    ensures SameSpace([[1.0], [-1.0]], [[-1.0]])
    ensures Evaluate([1.0], [[1.0], [-1.0]], [[-1.0]]) == Value(4.0)
  {
    var src, cached: seq<Embedding> := [[1.0], [-1.0]], [[-1.0]];
    OneTurn(1.0, src, cached);
    SelfDistance([-1.0]);
  }
}
