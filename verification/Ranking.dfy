/** How adapter.py turns search results into one answer at temperature 0. */
module Ranking {
  import opened Basics

  /** A search result that passed the filters, with its rank. */
  datatype Candidate = Candidate(rank: real, answer: string, id: Key)

  /** The rank an entry must reach: the similarity threshold scaled to the evaluator's range
      and clamped into it. */
  function RankThreshold(lo: real, hi: real, similarity: real, factor: real): (t: real)
    ensures lo <= hi ==> lo <= t <= hi
    ensures lo <= (hi - lo) * similarity * factor <= hi ==> t == (hi - lo) * similarity * factor
  {
    var t := (hi - lo) * similarity * factor;
    if t > hi then hi else if t < lo then lo else t
  }

  function Gap(x: real, y: real): real {
    if x >= y then x - y else y - x
  }

  /** The threshold is the point of the evaluator's range nearest to the scaled similarity. */
  lemma ThresholdIsNearest(lo: real, hi: real, similarity: real, factor: real, y: real)
    requires lo <= y <= hi
    ensures var scaled, t := (hi - lo) * similarity * factor, RankThreshold(lo, hi, similarity, factor);
      lo <= t <= hi && Gap(scaled, t) <= Gap(scaled, y)
  {
  }

  /** Stable descending insertion: behind every candidate of at least its rank. */
  function InsertDown(cs: seq<Candidate>, c: Candidate): (r: seq<Candidate>) {
    if |cs| > 0 && cs[0].rank >= c.rank then [cs[0]] + InsertDown(cs[1..], c) else [c] + cs
  }

  /** `sorted(..., reverse=True)` by rank, which keeps the search order among equals. */
  function SortDown(cs: seq<Candidate>): (r: seq<Candidate>) {
    if |cs| == 0 then [] else InsertDown(SortDown(cs[..|cs| - 1]), cs[|cs| - 1])
  }

  predicate Descending(cs: seq<Candidate>) {
    forall i, j :: 0 <= i < j < |cs| ==> cs[i].rank >= cs[j].rank
  }

  lemma FrontAndLast(cs: seq<Candidate>)
    requires |cs| > 0
    ensures cs == cs[..|cs| - 1] + [cs[|cs| - 1]]
    ensures multiset(cs) == multiset(cs[..|cs| - 1]) + multiset{cs[|cs| - 1]}
    ensures Descending(cs) ==> Descending(cs[..|cs| - 1])
  {
    assert cs == cs[..|cs| - 1] + [cs[|cs| - 1]];
  }

  lemma {:induction false} InsertDownKeeps(cs: seq<Candidate>, c: Candidate)
    ensures |InsertDown(cs, c)| == |cs| + 1
    ensures multiset(InsertDown(cs, c)) == multiset(cs) + multiset{c}
    decreases |cs|
  {
    if |cs| > 0 && cs[0].rank >= c.rank {
      InsertDownKeeps(cs[1..], c);
      assert cs == [cs[0]] + cs[1..];
    }
  }

  lemma {:induction false} InsertDownDescends(cs: seq<Candidate>, c: Candidate)
    requires Descending(cs)
    ensures Descending(InsertDown(cs, c))
    decreases |cs|
  {
    if |cs| > 0 && cs[0].rank >= c.rank {
      InsertDownDescends(cs[1..], c);
      InsertDownKeeps(cs[1..], c);
      PrependDescends(InsertDown(cs[1..], c), cs, c);
    }
  }

  lemma PrependDescends(r: seq<Candidate>, cs: seq<Candidate>, c: Candidate)
    requires |cs| > 0 && Descending(cs) && cs[0].rank >= c.rank
    requires multiset(r) == multiset(cs[1..]) + multiset{c} && Descending(r)
    ensures Descending([cs[0]] + r)
  {
    forall i | 0 <= i < |r|
      ensures cs[0].rank >= r[i].rank
    {
      assert r[i] in multiset(r);
      if r[i] != c {
        var j :| 0 <= j < |cs[1..]| && cs[1..][j] == r[i];
        assert cs[j + 1] == r[i];
      }
    }
  }

  lemma {:induction false} SortDownFacts(cs: seq<Candidate>)
    ensures Descending(SortDown(cs)) && multiset(SortDown(cs)) == multiset(cs) && |SortDown(cs)| == |cs|
    decreases |cs|
  {
    if |cs| > 0 {
      hide InsertDown, Descending;
      FrontAndLast(cs);
      SortDownFacts(cs[..|cs| - 1]);
      InsertDownKeeps(SortDown(cs[..|cs| - 1]), cs[|cs| - 1]);
      InsertDownDescends(SortDown(cs[..|cs| - 1]), cs[|cs| - 1]);
    }
  }

  /** The index of the first candidate of maximal rank. */
  ghost predicate IsFirstBest(cs: seq<Candidate>, i: nat) {
    && i < |cs|
    && (forall j :: 0 <= j < |cs| ==> cs[j].rank <= cs[i].rank)
    && (forall j :: 0 <= j < i ==> cs[j].rank < cs[i].rank)
  }

  /** The sorted list starts with the best candidate, the earliest in search order among
      equals; a second stable sort (temperature_softmax at 0) changes nothing about that. */
  lemma {:induction false} SortedHeadIsFirstBest(cs: seq<Candidate>) returns (i: nat)
    requires |cs| > 0
    ensures |SortDown(cs)| > 0 && IsFirstBest(cs, i) && SortDown(cs)[0] == cs[i]
    decreases |cs|
  {
    hide Descending, IsFirstBest;
    var front, last := cs[..|cs| - 1], cs[|cs| - 1];
    SortDownFacts(front);
    assert SortDown(cs) == InsertDown(SortDown(front), last);
    if |front| == 0 {
      i := 0;
      OneIsBest(cs);
    } else {
      var k := SortedHeadIsFirstBest(front);
      BestInRange(front, k);
      i := NextBest(cs, k);
    }
  }

  lemma BestInRange(cs: seq<Candidate>, i: nat)
    requires IsFirstBest(cs, i)
    ensures i < |cs|
  {
  }

  lemma OneIsBest(cs: seq<Candidate>)
    requires |cs| == 1
    ensures IsFirstBest(cs, 0)
  {
  }

  lemma NextBest(cs: seq<Candidate>, i: nat) returns (k: nat)
    requires |cs| > 0 && IsFirstBest(cs[..|cs| - 1], i)
    ensures k == if cs[i].rank < cs[|cs| - 1].rank then |cs| - 1 else i
    ensures IsFirstBest(cs, k)
  {
    var front := cs[..|cs| - 1];
    assert forall j :: 0 <= j < |front| ==> cs[j] == front[j];
    k := if cs[i].rank < cs[|cs| - 1].rank then |cs| - 1 else i;
  }

  lemma {:induction false} SortingTwice(cs: seq<Candidate>)
    requires Descending(cs)
    ensures SortDown(cs) == cs
    decreases |cs|
  {
    if |cs| > 0 {
      FrontAndLast(cs);
      SortingTwice(cs[..|cs| - 1]);
      InsertAtEnd(cs[..|cs| - 1], cs[|cs| - 1]);
    }
  }

  lemma {:induction false} InsertAtEnd(cs: seq<Candidate>, c: Candidate)
    requires forall i :: 0 <= i < |cs| ==> cs[i].rank >= c.rank
    ensures InsertDown(cs, c) == cs + [c]
    decreases |cs|
  {
    if |cs| > 0 {
      InsertAtEnd(cs[1..], c);
      assert cs + [c] == [cs[0]] + (cs[1..] + [c]);
    }
  }

  /** `answers_dict.get(answer)`: the dictionary is filled in sorted order, so the last
      candidate with that answer wins. */
  function LastWith(cs: seq<Candidate>, answer: string): (c: Candidate)
    requires exists i :: 0 <= i < |cs| && cs[i].answer == answer
    ensures c in cs && c.answer == answer
  {
    if cs[|cs| - 1].answer == answer then cs[|cs| - 1]
    else
      assert forall i :: 0 <= i < |cs| && cs[i].answer == answer ==> i < |cs| - 1 && cs[..|cs| - 1][i] == cs[i];
      LastWith(cs[..|cs| - 1], answer)
  }

  predicate DistinctIds(cs: seq<Candidate>) {
    forall i, j :: 0 <= i < j < |cs| ==> cs[i].id != cs[j].id
  }

  lemma {:induction false} LastWithIsLast(cs: seq<Candidate>, i: nat)
    requires i < |cs|
    ensures exists j :: i <= j < |cs| && LastWith(cs, cs[i].answer) == cs[j]
    decreases |cs|
  {
    if cs[|cs| - 1].answer != cs[i].answer {
      var front := cs[..|cs| - 1];
      assert front[i] == cs[i];
      LastWithIsLast(front, i);
      var j :| i <= j < |front| && LastWith(front, front[i].answer) == front[j];
      assert cs[j] == front[j];
    }
  }

  lemma {:induction false} NoLaterMeansFirst(cs: seq<Candidate>)
    requires |cs| > 0 && (forall j :: 0 < j < |cs| ==> cs[j].answer != cs[0].answer)
    ensures LastWith(cs, cs[0].answer) == cs[0]
    decreases |cs|
  {
    if |cs| > 1 {
      assert cs[..|cs| - 1][0] == cs[0];
      NoLaterMeansFirst(cs[..|cs| - 1]);
    }
  }

  /** The answer served is the top candidate's; the entry recorded for the session is that
      same entry exactly when no other candidate carries the same answer. */
  lemma RecordsTheServedEntryIff(cs: seq<Candidate>)
    requires |cs| > 0 && DistinctIds(cs)
    ensures var sorted := SortDown(cs);
      && |sorted| > 0 && sorted[0] in cs
      && (LastWith(sorted, sorted[0].answer).id == sorted[0].id <==>
            forall c :: c in cs && c.id != sorted[0].id ==> c.answer != sorted[0].answer)
  {
    SortDownFacts(cs);
    var sorted := SortDown(cs);
    InBoth(sorted, cs);
    IdsStayDistinct(sorted, cs);
    if forall c :: c in cs && c.id != sorted[0].id ==> c.answer != sorted[0].answer {
      NoLaterMeansFirst(sorted);
    } else {
      var c :| c in cs && c.id != sorted[0].id && c.answer == sorted[0].answer;
      assert c in sorted;
      var i :| 0 <= i < |sorted| && sorted[i] == c;
      LastWithIsLast(sorted, i);
      var j :| i <= j < |sorted| && LastWith(sorted, c.answer) == sorted[j];
      assert j > 0;
    }
  }

  // ---------- the sort is stable ----------

  /** `x` ranks above `y`, or equal to it and comes earlier in `cs`. */
  ghost predicate Precedes(cs: seq<Candidate>, x: Candidate, y: Candidate) {
    x.rank > y.rank || (x.rank == y.rank && Earlier(cs, x, y))
  }

  ghost predicate Earlier(cs: seq<Candidate>, x: Candidate, y: Candidate) {
    exists p, r :: 0 <= p < r < |cs| && cs[p] == x && cs[r] == y
  }

  lemma {:induction false} InsertPosition(cs: seq<Candidate>, c: Candidate) returns (m: nat)
    requires Descending(cs)
    ensures m <= |cs| && InsertDown(cs, c) == cs[..m] + [c] + cs[m..]
    ensures (forall i :: 0 <= i < m ==> cs[i].rank >= c.rank) && (forall i :: m <= i < |cs| ==> cs[i].rank < c.rank)
    decreases |cs|
  {
    if |cs| > 0 && cs[0].rank >= c.rank {
      var k := InsertPosition(cs[1..], c);
      m := k + 1;
      assert cs == [cs[0]] + cs[1..];
      assert cs[..m] == [cs[0]] + cs[1..][..k] && cs[m..] == cs[1..][k..];
    } else {
      m := 0;
    }
  }

  lemma PrecedesMore(front: seq<Candidate>, c: Candidate, x: Candidate, y: Candidate)
    requires Precedes(front, x, y)
    ensures Precedes(front + [c], x, y)
  {
    if Earlier(front, x, y) {
      var p, r :| 0 <= p < r < |front| && front[p] == x && front[r] == y;
      assert (front + [c])[p] == x && (front + [c])[r] == y;
    }
  }

  lemma PrecedesLast(front: seq<Candidate>, c: Candidate, x: Candidate)
    requires x in front && x.rank >= c.rank
    ensures Precedes(front + [c], x, c)
  {
    var p :| 0 <= p < |front| && front[p] == x;
    assert (front + [c])[p] == x && (front + [c])[|front|] == c;
  }

  ghost predicate InPrecedence(cs: seq<Candidate>, sorted: seq<Candidate>) {
    forall i, j :: 0 <= i < j < |sorted| ==> Precedes(cs, sorted[i], sorted[j])
  }

  lemma InsertKeepsPrecedence(front: seq<Candidate>, sorted: seq<Candidate>, c: Candidate)
    requires Descending(sorted) && InPrecedence(front, sorted) && forall x :: x in sorted ==> x in front
    ensures InPrecedence(front + [c], InsertDown(sorted, c))
  {
    hide Precedes, Descending;
    var m := InsertPosition(sorted, c);
    var s := sorted[..m] + [c] + sorted[m..];
    forall i, j | 0 <= i < j < |s|
      ensures Precedes(front + [c], s[i], s[j])
    {
      if i == m {
        assert s[j] == sorted[j - 1] && s[j].rank < c.rank;
        HigherPrecedes(front + [c], c, s[j]);
      } else if j == m {
        assert s[i] == sorted[i] && s[i] in sorted;
        PrecedesLast(front, c, s[i]);
      } else {
        var p, r := if i < m then i else i - 1, if j < m then j else j - 1;
        assert s[i] == sorted[p] && s[j] == sorted[r] && p < r;
        PrecedesMore(front, c, s[i], s[j]);
      }
    }
  }

  lemma HigherPrecedes(cs: seq<Candidate>, x: Candidate, y: Candidate)
    requires x.rank > y.rank
    ensures Precedes(cs, x, y)
  {
  }

  /** The sorted list is in order of rank, and among equals in search order. */
  lemma {:induction false} SortIsStable(cs: seq<Candidate>)
    ensures InPrecedence(cs, SortDown(cs))
    decreases |cs|
  {
    hide InsertDown, Descending, InPrecedence;
    if |cs| > 0 {
      var front, last := cs[..|cs| - 1], cs[|cs| - 1];
      SortIsStable(front);
      SortDownFacts(front);
      InBoth(SortDown(front), front);
      InsertKeepsPrecedence(front, SortDown(front), last);
      assert cs == front + [last];
    } else {
      NothingOutOfOrder(cs);
    }
  }

  lemma NothingOutOfOrder(cs: seq<Candidate>)
    ensures InPrecedence(cs, [])
  {
  }

  // ---------- leaving one candidate out ----------

  function Except(cs: seq<Candidate>, id: Key): (r: seq<Candidate>) {
    if |cs| == 0 then [] else if cs[0].id == id then Except(cs[1..], id) else [cs[0]] + Except(cs[1..], id)
  }

  lemma {:induction false} ExceptAppend(a: seq<Candidate>, b: seq<Candidate>, id: Key)
    ensures Except(a + b, id) == Except(a, id) + Except(b, id)
    decreases |a|
  {
    if |a| == 0 {
      assert a + b == b;
    } else {
      assert (a + b)[1..] == a[1..] + b;
      ExceptAppend(a[1..], b, id);
    }
  }

  lemma ExceptCons(c: Candidate, cs: seq<Candidate>, id: Key)
    ensures Except([c] + cs, id) == if c.id == id then Except(cs, id) else [c] + Except(cs, id)
  {
    assert ([c] + cs)[1..] == cs;
  }

  lemma ExceptOne(c: Candidate, id: Key)
    ensures Except([c], id) == if c.id == id then [] else [c]
  {
  }

  lemma {:induction false} ExceptAfterInsert(cs: seq<Candidate>, c: Candidate, id: Key)
    requires Descending(cs)
    ensures Except(InsertDown(cs, c), id)
         == if c.id == id then Except(cs, id) else InsertDown(Except(cs, id), c)
    decreases |cs|
  {
    if |cs| > 0 && cs[0].rank >= c.rank {
      ExceptAfterInsert(cs[1..], c, id);
      var r, rest := InsertDown(cs[1..], c), Except(cs[1..], id);
      ExceptCons(cs[0], r, id);
      if c.id != id && cs[0].id != id {
        assert Except(cs, id)[0] == cs[0] && Except(cs, id)[1..] == rest;
        assert InsertDown(Except(cs, id), c) == [cs[0]] + InsertDown(rest, c);
      }
    } else {
      ExceptCons(c, cs, id);
      ExceptBelow(cs, c, id);
    }
  }

  /** Below `c` everything stays below it, so it is inserted in front. */
  lemma {:induction false} ExceptBelow(cs: seq<Candidate>, c: Candidate, id: Key)
    requires forall i :: 0 <= i < |cs| ==> cs[i].rank < c.rank
    ensures InsertDown(Except(cs, id), c) == [c] + Except(cs, id)
    decreases |cs|
  {
    if |cs| > 0 && cs[0].id == id {
      ExceptBelow(cs[1..], c, id);
    }
  }

  /** Leaving a candidate out commutes with sorting. */
  lemma {:induction false} SortExcept(cs: seq<Candidate>, id: Key)
    ensures SortDown(Except(cs, id)) == Except(SortDown(cs), id)
    decreases |cs|
  {
    hide InsertDown, Except, Descending;
    if |cs| > 0 {
      var front, last := cs[..|cs| - 1], cs[|cs| - 1];
      assert cs == front + [last];
      ExceptAppend(front, [last], id);
      ExceptOne(last, id);
      SortDownFacts(front);
      SortExcept(front, id);
      ExceptAfterInsert(SortDown(front), last, id);
      if last.id == id {
        assert Except(cs, id) == Except(front, id);
      } else {
        assert Except(cs, id)[..|Except(cs, id)| - 1] == Except(front, id);
      }
    } else {
      NothingLeft(id);
    }
  }

  lemma NothingLeft(id: Key)
    ensures Except([], id) == []
  {
  }

  /** The best candidate stays the best when another one is left out. */
  lemma BestExcept(cs: seq<Candidate>, id: Key)
    requires |cs| > 0 && |SortDown(cs)| > 0 && SortDown(cs)[0].id != id
    ensures |SortDown(Except(cs, id))| > 0 && SortDown(Except(cs, id))[0] == SortDown(cs)[0]
  {
    SortExcept(cs, id);
  }

  lemma InBoth(a: seq<Candidate>, b: seq<Candidate>)
    requires multiset(a) == multiset(b)
    ensures forall c :: c in a <==> c in b
  {
    forall c ensures c in a <==> c in b {
      assert c in a <==> c in multiset(a);
      assert c in b <==> c in multiset(b);
    }
  }

  lemma {:induction false} CountId(cs: seq<Candidate>, c: Candidate)
    requires DistinctIds(cs)
    ensures multiset(cs)[c] <= 1
    decreases |cs|
  {
    if |cs| > 0 {
      var front, last := cs[..|cs| - 1], cs[|cs| - 1];
      assert cs == front + [last];
      CountId(front, c);
      assert forall i :: 0 <= i < |front| ==> front[i] == cs[i] && front[i].id != last.id;
      assert last !in front && last !in multiset(front);
    }
  }

  lemma IdsStayDistinct(a: seq<Candidate>, b: seq<Candidate>)
    requires multiset(a) == multiset(b) && DistinctIds(b)
    ensures DistinctIds(a)
  {
    InBoth(a, b);
    forall i, j | 0 <= i < j < |a|
      ensures a[i].id != a[j].id
    {
      if a[i].id == a[j].id {
        assert a[i] in b && a[j] in b;
        assert a[i] == a[j];
        CountId(b, a[i]);
        TwiceCounts(a, i, j);
      }
    }
  }

  lemma TwiceCounts(a: seq<Candidate>, i: nat, j: nat)
    requires i < j < |a| && a[i] == a[j]
    ensures multiset(a)[a[i]] >= 2
  {
    assert a == a[..i] + [a[i]] + a[i + 1..j] + [a[j]] + a[j + 1..];
  }
}
