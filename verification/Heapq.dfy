/** The priority queue behind the GDSF policy: Python's `heapq` on a list of
    `(priority, tiebreak, key)` tuples, as gdsf.py uses it. */
module Heapq {
  import opened Basics

  /** `tick` is the value drawn from the instance's `itertools.count()`; it makes
      the tuple order total before the key would be looked at. */
  datatype Entry = Entry(prio: real, tick: nat, key: Key)

  predicate Leq(a: Entry, b: Entry) {
    a.prio < b.prio || (a.prio == b.prio && a.tick <= b.tick)
  }

  function Parent(j: int): (i: int)
    requires 0 < j
    ensures 0 <= i < j
  {
    (j - 1) / 2
  }

  ghost predicate IsHeap(h: seq<Entry>) {
    forall j :: 0 < j < |h| ==> Leq(h[Parent(j)], h[j])
  }

  /** The heap order holds everywhere except between `pos` and its parent, and
      the children of `pos` are not below its parent. */
  ghost predicate HeapExceptAbove(h: seq<Entry>, pos: int)
    requires 0 <= pos < |h|
  {
    && (forall j :: 0 < j < |h| && j != pos ==> Leq(h[Parent(j)], h[j]))
    && (0 < pos ==> forall j :: 0 < j < |h| && Parent(j) == pos ==> Leq(h[Parent(pos)], h[j]))
  }

  /** The heap order holds everywhere except around `pos`; the children of `pos`
      are not below its parent. */
  ghost predicate HeapExceptAt(h: seq<Entry>, pos: int)
    requires 0 <= pos < |h|
  {
    && (forall j :: 0 < j < |h| && j != pos && Parent(j) != pos ==> Leq(h[Parent(j)], h[j]))
    && (0 < pos ==> forall j :: 0 < j < |h| && Parent(j) == pos ==> Leq(h[Parent(pos)], h[j]))
  }

  lemma {:induction false} RootIsLeast(h: seq<Entry>, i: nat)
    requires IsHeap(h) && i < |h|
    ensures Leq(h[0], h[i])
  {
    if i > 0 {
      RootIsLeast(h, Parent(i));
    }
  }

  function Swap(h: seq<Entry>, i: nat, j: nat): (r: seq<Entry>)
    requires i < |h| && j < |h|
    ensures |r| == |h| && r[i] == h[j] && r[j] == h[i]
    ensures forall m :: 0 <= m < |h| && m != i && m != j ==> r[m] == h[m]
    ensures multiset(r) == multiset(h)
  {
    h[i := h[j]][j := h[i]]
  }

  lemma RiseStep(h: seq<Entry>, pos: nat)
    requires 0 < pos < |h| && HeapExceptAbove(h, pos) && !Leq(h[Parent(pos)], h[pos])
    ensures HeapExceptAbove(Swap(h, pos, Parent(pos)), Parent(pos))
  {
    var up := Parent(pos);
    var r := Swap(h, pos, up);
    forall j | 0 < j < |r| && j != up
      ensures Leq(r[Parent(j)], r[j])
    {
      if j == pos {
      } else if Parent(j) == pos {
        assert Leq(h[up], h[j]);
      } else {
        assert Leq(h[Parent(j)], h[j]);
      }
    }
    if up > 0 {
      forall j | 0 < j < |r| && Parent(j) == up
        ensures Leq(r[Parent(up)], r[j])
      {
        assert Leq(h[Parent(up)], h[up]);
        if j != pos {
          assert Leq(h[up], h[j]);
        }
      }
    }
  }

  lemma RiseDone(h: seq<Entry>, pos: nat)
    requires pos < |h| && HeapExceptAbove(h, pos)
    requires pos == 0 || Leq(h[Parent(pos)], h[pos])
    ensures IsHeap(h)
  {
  }

  /** `heapq._siftdown`: carry the entry at `pos` towards the root. */
  method MoveTowardsRoot(h0: seq<Entry>, pos0: nat) returns (h: seq<Entry>)
    requires pos0 < |h0| && HeapExceptAbove(h0, pos0)
    ensures IsHeap(h) && multiset(h) == multiset(h0)
  {
    hide HeapExceptAbove, IsHeap;
    h := h0;
    var pos := pos0;
    while pos > 0
      invariant 0 <= pos < |h|
      invariant HeapExceptAbove(h, pos)
      invariant multiset(h) == multiset(h0)
    {
      var up := Parent(pos);
      if Leq(h[up], h[pos]) {
        RiseDone(h, pos);
        return;
      }
      RiseStep(h, pos);
      h := Swap(h, pos, up);
      pos := up;
    }
    RiseDone(h, pos);
  }

  lemma SinkStep(h: seq<Entry>, pos: nat, child: nat)
    requires pos < |h| && HeapExceptAt(h, pos)
    requires 0 < child < |h| && Parent(child) == pos
    requires forall j :: 0 < j < |h| && Parent(j) == pos ==> Leq(h[child], h[j])
    ensures HeapExceptAt(Swap(h, pos, child), child)
  {
    var r := Swap(h, pos, child);
    forall j | 0 < j < |r| && j != child && Parent(j) != child
      ensures Leq(r[Parent(j)], r[j])
    {
      if j == pos {
        assert Leq(h[Parent(pos)], h[child]);
      } else if Parent(j) == pos {
        assert Leq(h[child], h[j]);
      } else {
        assert Leq(h[Parent(j)], h[j]);
      }
    }
    forall j | 0 < j < |r| && Parent(j) == child
      ensures Leq(r[pos], r[j])
    {
      assert Leq(h[Parent(j)], h[j]);
    }
  }

  /** The smaller child bounds both children. */
  lemma SmallerChild(h: seq<Entry>, pos: nat, child: nat)
    requires child < |h|
    requires child == 2 * pos + 1 || child == 2 * pos + 2
    requires child == 2 * pos + 1 ==> 2 * pos + 2 < |h| ==> Leq(h[child], h[2 * pos + 2])
    requires child == 2 * pos + 2 ==> Leq(h[child], h[2 * pos + 1])
    ensures Parent(child) == pos
    ensures forall j :: 0 < j < |h| && Parent(j) == pos ==> Leq(h[child], h[j])
  {
  }

  lemma HoleAtLeaf(h: seq<Entry>, pos: nat)
    requires pos < |h| <= 2 * pos + 1 && HeapExceptAt(h, pos)
    ensures HeapExceptAbove(h, pos)
  {
  }

  /** `heapq._siftup`: let the entry at `pos` sink to a leaf along the smaller
      children, then carry it back up to its place. */
  method Settle(h0: seq<Entry>) returns (h: seq<Entry>)
    requires 0 < |h0| && HeapExceptAt(h0, 0)
    ensures IsHeap(h) && multiset(h) == multiset(h0)
  {
    hide HeapExceptAt, HeapExceptAbove, IsHeap;
    h := h0;
    var pos := 0;
    while 2 * pos + 1 < |h|
      invariant 0 <= pos < |h|
      invariant HeapExceptAt(h, pos)
      invariant multiset(h) == multiset(h0) && |h| == |h0|
      decreases |h| - pos
    {
      var child := 2 * pos + 1;
      if child + 1 < |h| && Leq(h[child + 1], h[child]) {
        child := child + 1;
      }
      SmallerChild(h, pos, child);
      SinkStep(h, pos, child);
      h := Swap(h, pos, child);
      pos := child;
    }
    HoleAtLeaf(h, pos);
    h := MoveTowardsRoot(h, pos);
  }

  method HeapPush(h0: seq<Entry>, e: Entry) returns (h: seq<Entry>)
    requires IsHeap(h0)
    ensures IsHeap(h)
    ensures multiset(h) == multiset(h0) + multiset{e}
  {
    h := MoveTowardsRoot(h0 + [e], |h0|);
  }

  method HeapPop(h0: seq<Entry>) returns (least: Entry, h: seq<Entry>)
    requires IsHeap(h0) && 0 < |h0|
    ensures forall e :: e in h0 ==> Leq(least, e)
    ensures IsHeap(h)
    ensures multiset(h0) == multiset(h) + multiset{least} && |h| == |h0| - 1
  {
    least := h0[0];
    forall i | 0 <= i < |h0|
      ensures Leq(least, h0[i])
    {
      RootIsLeast(h0, i);
    }
    var last := |h0| - 1;
    h := h0[..last];
    assert h0 == h + [h0[last]];
    if h != [] {
      assert multiset(h[0 := h0[last]]) + multiset{least} == multiset(h0);
      h := Settle(h[0 := h0[last]]);
    }
  }
}
