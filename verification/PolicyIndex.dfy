/** The in-memory eviction index for an arbitrary policy: which key goes next may depend
    on everything that happened to the index so far.  LRU, LFU, FIFO, RR with a fixed seed
    and GDSF are all of this kind.  Entries have unit size. */
module PolicyIndex {
  import opened Basics

  datatype Access = Stored(key: Key, cost: real) | Touched(key: Key) | Popped(key: Key)

  type Policy = (seq<Access>, set<Key>) -> Key

  /** A policy picks residents. */
  ghost predicate Sound(policy: Policy) {
    forall h, keys: set<Key> :: keys != {} ==> policy(h, keys) in keys
  }

  datatype Index = Index(keys: set<Key>, accesses: seq<Access>)

  function Next(policy: Policy, ix: Index): Key {
    policy(ix.accesses, ix.keys)
  }

  function Pop(policy: Policy, ix: Index): Index {
    var k := Next(policy, ix);
    Index(ix.keys - {k}, ix.accesses + [Popped(k)])
  }

  function Store(ix: Index, k: Key, cost: real): Index {
    Index(ix.keys + {k}, ix.accesses + [Stored(k, cost)])
  }

  /** `get`: only a resident key is touched. */
  function Touch(ix: Index, k: Key): Index {
    if k in ix.keys then Index(ix.keys, ix.accesses + [Touched(k)]) else ix
  }

  function PopMany(policy: Policy, ix: Index, n: nat): Index
    decreases n
  {
    if n == 0 || ix.keys == {} then ix else PopMany(policy, Pop(policy, ix), n - 1)
  }

  /** The keys `PopMany` removes, in order. */
  function Victims(policy: Policy, ix: Index, n: nat): seq<Key>
    decreases n
  {
    if n == 0 || ix.keys == {} then [] else [Next(policy, ix)] + Victims(policy, Pop(policy, ix), n - 1)
  }

  /** What the wrapper passes to `on_evict`: the victims, or nothing if the index ran out. */
  function Reported(policy: Policy, ix: Index, n: nat): seq<Key> {
    if n <= |ix.keys| then Victims(policy, ix, n) else []
  }

  lemma {:induction false} VictimsLeave(policy: Policy, ix: Index, n: nat)
    requires Sound(policy)
    ensures var ks := Victims(policy, ix, n);
      && |ks| == (if n <= |ix.keys| then n else |ix.keys|)
      && Members(ks) <= ix.keys && PopMany(policy, ix, n).keys == ix.keys - Members(ks)
      && |Members(ks)| == |ks|
    decreases n
  {
    hide Pop, Next, Sound, Members;
    MembersOfNone();
    if n != 0 && ix.keys != {} {
      NextResides(policy, ix);
      var k, u := Next(policy, ix), Pop(policy, ix);
      VictimsLeave(policy, u, n - 1);
      var rest := Victims(policy, u, n - 1);
      assert Victims(policy, ix, n) == [k] + rest && PopMany(policy, ix, n) == PopMany(policy, u, n - 1);
      MembersOfCons(k, rest);
    }
  }

  lemma MembersOfNone()
    ensures Members<Key>([]) == {}
  {
  }

  lemma MembersOfCons(k: Key, ks: seq<Key>)
    ensures Members([k] + ks) == {k} + Members(ks)
  {
  }

  lemma NextResides(policy: Policy, ix: Index)
    requires Sound(policy) && ix.keys != {}
    ensures Next(policy, ix) in ix.keys && Pop(policy, ix).keys == ix.keys - {Next(policy, ix)}
    ensures |Pop(policy, ix).keys| == |ix.keys| - 1
  {
  }

  // ---------- histories ----------

  function Pops(ks: seq<Key>): (h: seq<Access>)
    ensures |h| == |ks| && forall i :: 0 <= i < |ks| ==> h[i] == Popped(ks[i])
  {
    seq(|ks|, i requires 0 <= i < |ks| => Popped(ks[i]))
  }

  /** A history without its evictions. */
  function Unpopped(h: seq<Access>): seq<Access> {
    if |h| == 0 then [] else (if h[0].Popped? then [] else [h[0]]) + Unpopped(h[1..])
  }

  lemma {:induction false} UnpoppedConcat(a: seq<Access>, b: seq<Access>)
    ensures Unpopped(a + b) == Unpopped(a) + Unpopped(b)
    decreases |a|
  {
    if |a| == 0 {
      assert a + b == b;
    } else {
      assert (a + b)[1..] == a[1..] + b;
      UnpoppedConcat(a[1..], b);
    }
  }

  lemma {:induction false} UnpoppedPops(ks: seq<Key>)
    ensures Unpopped(Pops(ks)) == []
    decreases |ks|
  {
    if |ks| != 0 {
      assert Pops(ks)[1..] == Pops(ks[1..]);
      UnpoppedPops(ks[1..]);
    }
  }

  lemma {:induction false} PopManyTells(policy: Policy, ix: Index, n: nat)
    ensures PopMany(policy, ix, n).accesses == ix.accesses + Pops(Victims(policy, ix, n))
    decreases n
  {
    if n == 0 || ix.keys == {} {
      assert ix.accesses + Pops([]) == ix.accesses;
    } else {
      var k, u := Next(policy, ix), Pop(policy, ix);
      PopManyTells(policy, u, n - 1);
      var rest := Victims(policy, u, n - 1);
      assert Pops([k] + rest) == [Popped(k)] + Pops(rest);
    }
  }

  /** memory_cache.py for an arbitrary policy. */
  class EvictionIndex {
    const policy: Policy
    const maxsize: nat
    const cleanSize: nat
    var keys: set<Key>
    var accesses: seq<Access>

    ghost function Abs(): Index
      reads this
    {
      Index(keys, accesses)
    }

    constructor (policy: Policy, maxsize: nat, cleanSize: nat)
      ensures this.policy == policy && this.maxsize == maxsize && this.cleanSize == cleanSize
      ensures Abs() == Index({}, [])
    {
      this.policy, this.maxsize, this.cleanSize := policy, maxsize, cleanSize;
      keys, accesses := {}, [];
    }

    /** The policy's own `popitem` on a non-empty index. */
    method PopOne() returns (k: Key)
      requires Sound(policy) && keys != {}
      modifies this
      ensures Abs() == Pop(policy, old(Abs())) && k == Next(policy, old(Abs()))
      ensures |keys| == old(|keys|) - 1
    {
      NextResides(policy, Abs());
      k := policy(accesses, keys);
      keys := keys - {k};
      accesses := accesses + [Popped(k)];
    }

    /** The wrapped `popitem`, up to the call of `on_evict`. */
    method PopBatch() returns (reported: seq<Key>)
      requires Sound(policy)
      modifies this
      ensures Abs() == PopMany(policy, old(Abs()), cleanSize)
      ensures reported == Reported(policy, old(Abs()), cleanSize)
    {
      hide Sound, Pop, Next, Members;
      ghost var start := Abs();
      VictimsLeave(policy, start, cleanSize);
      reported := [];
      var i := 0;
      while i < cleanSize
        invariant i <= cleanSize
        invariant PopMany(policy, Abs(), cleanSize - i) == PopMany(policy, start, cleanSize)
        invariant reported + Victims(policy, Abs(), cleanSize - i) == Victims(policy, start, cleanSize)
        invariant |keys| + i == |start.keys|
      {
        if keys == {} {
          assert PopMany(policy, Abs(), cleanSize - i) == Abs();
          reported := [];
          return;
        }
        var k := PopOne();
        reported := reported + [k];
        i := i + 1;
      }
    }

    method StoreKey(k: Key, cost: real)
      modifies this
      ensures Abs() == Store(old(Abs()), k, cost)
    {
      keys := keys + {k};
      accesses := accesses + [Stored(k, cost)];
    }

    method Get(k: Key)
      modifies this
      ensures Abs() == Touch(old(Abs()), k)
    {
      if k in keys {
        accesses := accesses + [Touched(k)];
      }
    }
  }
}
