/** The data manager under GDSF is a GDSF cache: every put is a set with the row's cost,
    every hit a read, and a run of requests is the run of these operations.  The cache that
    an access history describes keeps no record of what `on_evict` was told, so states are
    compared up to that record. */
module GdsfRefinement {
  import opened Basics
  import opened SqlStorage
  import opened GdsfPolicy
  import G = GdsfModel
  import P = PolicyIndex
  import M = ManagerModel
  import Eviction
  import Frequency
  import Operations = GdsfOperations

  /** The same cache with another record of calls. */
  function With(s: G.Cache, calls: seq<seq<Key>>): G.Cache {
    s.(past := s.past.(calls := calls))
  }

  function Unreported(s: G.Cache): G.Cache {
    With(s, [])
  }

  // ---------- the record of calls steers nothing ----------

  lemma WithValid(cfg: G.Config, s: G.Cache, calls: seq<seq<Key>>)
    requires G.Valid(cfg, s)
    ensures G.Valid(cfg, With(s, calls))
  {
  }

  lemma VictimWith(cfg: G.Config, s: G.Cache, calls: seq<seq<Key>>)
    requires G.Valid(cfg, s) && G.Valid(cfg, With(s, calls)) && s.data != map[]
    ensures G.Victim(cfg, With(s, calls)) == G.Victim(cfg, s)
  {
    assert G.Live(With(s, calls)) == G.Live(s);
  }

  lemma EvictWith(cfg: G.Config, s: G.Cache, calls: seq<seq<Key>>)
    requires G.Valid(cfg, s) && G.Valid(cfg, With(s, calls)) && s.data != map[]
    ensures G.Evict(cfg, With(s, calls)) == With(G.Evict(cfg, s), calls)
  {
    hide G.Valid, G.Victim, G.Above, G.Skipped;
    VictimWith(cfg, s, calls);
  }

  lemma {:induction false} PopManyWith(cfg: G.Config, s: G.Cache, calls: seq<seq<Key>>, n: nat)
    requires G.Valid(cfg, s) && G.Valid(cfg, With(s, calls))
    ensures G.PopMany(cfg, With(s, calls), n) == With(G.PopMany(cfg, s, n), calls)
    decreases n
  {
    hide G.Valid, G.Victim, G.Evict;
    if n != 0 && s.data != map[] {
      EvictWith(cfg, s, calls);
      PopManyWith(cfg, G.Evict(cfg, s), calls, n - 1);
    }
  }

  lemma PushWith(cfg: G.Config, s: G.Cache, calls: seq<seq<Key>>, k: Key, v: G.Value)
    ensures G.Push(cfg, G.Store(cfg, With(s, calls), k, v), k, v) == With(G.Push(cfg, G.Store(cfg, s, k, v), k, v), calls)
  {
    hide G.Priority;
  }

  lemma ReadWith(cfg: G.Config, s: G.Cache, calls: seq<seq<Key>>, k: Key)
    requires G.Valid(cfg, s) && G.Valid(cfg, With(s, calls))
    ensures G.GetItem(cfg, With(s, calls), k) == With(G.GetItem(cfg, s, k), calls)
  {
    hide G.Valid, G.Push;
    if k in s.data {
      G.ResidentHasFreq(cfg, s, k);
      assert G.Touch(With(s, calls), k) == With(G.Touch(s, k), calls);
      OnlyPushWith(cfg, G.Touch(s, k), calls, k, s.data[k]);
    }
  }

  lemma OnlyPushWith(cfg: G.Config, s: G.Cache, calls: seq<seq<Key>>, k: Key, v: G.Value)
    requires k in s.freq
    ensures G.Push(cfg, With(s, calls), k, v) == With(G.Push(cfg, s, k, v), calls)
  {
    hide G.Priority;
  }

  /** Configurations of the eviction index: unit sizes, wrapped popitem, `1 <= clean_size`. */
  ghost predicate IndexLike(cfg: G.Config) {
    Eviction.UnitSizes(cfg) && cfg.popMode.Batched? && 1 <= cfg.popMode.cleanSize && 1 <= cfg.maxsize
  }

  /** A set, said directly: at a full cache and for a new key, `clean_size` pops; then store
      and push. */
  ghost function DirectSet(cfg: G.Config, s: G.Cache, k: Key, v: G.Value): G.Cache
    requires G.Valid(cfg, s) && cfg.popMode.Batched?
  {
    var room := if k !in s.data && |s.data| == cfg.maxsize then G.PopMany(cfg, s, cfg.popMode.cleanSize) else s;
    G.Push(cfg, G.Store(cfg, room, k, v), k, v)
  }

  lemma SetIsDirect(cfg: G.Config, s: G.Cache, k: Key, v: G.Value)
    requires G.Valid(cfg, s) && IndexLike(cfg)
    ensures Unreported(G.SetItem(cfg, s, k, v)) == Unreported(DirectSet(cfg, s, k, v))
  {
    hide G.Valid, G.Push, G.Store, G.PopMany, G.Victims, G.MakeRoom, G.Room, G.TooLarge;
    Eviction.UnitCount(cfg, s);
    if k !in s.data && |s.data| == cfg.maxsize {
      FullRoom(cfg, s, k, v);
      var popped, room := G.PopMany(cfg, s, cfg.popMode.cleanSize), G.PopBatch(cfg, s, cfg.popMode.cleanSize);
      assert room == With(popped, room.past.calls);
      PushWith(cfg, popped, room.past.calls, k, v);
    } else {
      NoRoomNeeded(cfg, s, k, v);
    }
  }

  lemma FullRoom(cfg: G.Config, s: G.Cache, k: Key, v: G.Value)
    requires G.Valid(cfg, s) && IndexLike(cfg) && k !in s.data && |s.data| == cfg.maxsize
    ensures !G.TooLarge(cfg, v) && G.Room(cfg, s, k, v) == G.PopBatch(cfg, s, cfg.popMode.cleanSize)
  {
    hide G.Valid, G.PopBatch, G.MakeRoom;
    Eviction.OverflowIsOneBatch(cfg, s);
  }

  lemma NoRoomNeeded(cfg: G.Config, s: G.Cache, k: Key, v: G.Value)
    requires G.Valid(cfg, s) && IndexLike(cfg) && s.currsize == |s.data| <= cfg.maxsize
    requires k in s.data || |s.data| != cfg.maxsize
    ensures !G.TooLarge(cfg, v) && G.Room(cfg, s, k, v) == s
  {
    hide G.Valid;
  }

  lemma SetWith(cfg: G.Config, s: G.Cache, calls: seq<seq<Key>>, k: Key, v: G.Value)
    requires G.Valid(cfg, s) && G.Valid(cfg, With(s, calls)) && IndexLike(cfg)
    ensures Unreported(G.SetItem(cfg, With(s, calls), k, v)) == Unreported(G.SetItem(cfg, s, k, v))
  {
    hide G.Valid, G.SetItem, G.Push, G.Store, G.PopMany;
    SetIsDirect(cfg, s, k, v);
    SetIsDirect(cfg, With(s, calls), k, v);
    var room := if k !in s.data && |s.data| == cfg.maxsize then G.PopMany(cfg, s, cfg.popMode.cleanSize) else s;
    PopManyWith(cfg, s, calls, cfg.popMode.cleanSize);
    PushWith(cfg, room, calls, k, v);
  }

  predicate SetOrGet(op: G.Op) {
    op.Set? || op.Get?
  }

  lemma StepWith(cfg: G.Config, s: G.Cache, calls: seq<seq<Key>>, op: G.Op)
    requires G.Valid(cfg, s) && G.Valid(cfg, With(s, calls)) && IndexLike(cfg) && SetOrGet(op)
    ensures Unreported(G.Step(cfg, With(s, calls), op)) == Unreported(G.Step(cfg, s, op))
  {
    hide G.Valid, G.SetItem, G.GetItem;
    match op
    case Set(k, v) => SetWith(cfg, s, calls, k, v);
    case Get(k) => ReadWith(cfg, s, calls, k);
  }

  /** Two caches that differ only in the record of calls stay so over every run. */
  lemma {:induction false} RunWith(cfg: G.Config, s: G.Cache, calls: seq<seq<Key>>, ops: seq<G.Op>)
    requires G.Valid(cfg, s) && G.Valid(cfg, With(s, calls)) && IndexLike(cfg)
    requires forall op :: op in ops ==> SetOrGet(op)
    ensures Unreported(G.Run(cfg, With(s, calls), ops)) == Unreported(G.Run(cfg, s, ops))
    decreases |ops|
  {
    hide G.Valid, G.Step, SetOrGet;
    if |ops| != 0 {
      StepWith(cfg, s, calls, ops[0]);
      var t, u := G.Step(cfg, s, ops[0]), G.Step(cfg, With(s, calls), ops[0]);
      assert u == With(t, u.past.calls) by { FromUnreported(t, u); }
      RunWith(cfg, t, u.past.calls, ops[1..]);
    }
  }

  lemma FromUnreported(t: G.Cache, u: G.Cache)
    requires Unreported(t) == Unreported(u)
    ensures u == With(t, u.past.calls)
  {
    assert u.past == With(t, u.past.calls).past;
  }

  lemma {:induction false} RunConcat(cfg: G.Config, s: G.Cache, a: seq<G.Op>, b: seq<G.Op>)
    requires G.Valid(cfg, s) && G.Progressive(cfg)
    ensures G.Run(cfg, s, a + b) == G.Run(cfg, G.Run(cfg, s, a), b)
    decreases |a|
  {
    hide G.Valid, G.Step;
    if |a| == 0 {
      assert a + b == b;
    } else {
      assert (a + b)[1..] == a[1..] + b;
      RunConcat(cfg, G.Step(cfg, s, a[0]), a[1..], b);
    }
  }

  // ---------- one put, one hit ----------

  lemma {:induction false} ReplayReportsNothing(cfg: G.Config, h: seq<P.Access>)
    ensures Replay(cfg, h).past.calls == []
    decreases |h|
  {
    hide G.Valid, G.Evict;
    if |h| != 0 {
      var s := Replay(cfg, h[..|h| - 1]);
      ReplayReportsNothing(cfg, h[..|h| - 1]);
      ApplyReportsNothing(cfg, s, h[|h| - 1]);
    }
  }

  lemma ApplyReportsNothing(cfg: G.Config, s: G.Cache, a: P.Access)
    requires G.Valid(cfg, s)
    ensures Apply(cfg, s, a).past.calls == s.past.calls
  {
    hide G.Valid, G.Evict, G.Victim, G.Priority;
    if s.data != map[] {
      Eviction.EvictTakesVictim(cfg, s);
    }
  }

  lemma ReplayIsUnreported(cfg: G.Config, h: seq<P.Access>)
    ensures Unreported(Replay(cfg, h)) == Replay(cfg, h)
  {
    ReplayReportsNothing(cfg, h);
  }

  /** The cache behind the eviction index. */
  ghost function CacheOf(g: G.Config, st: M.State): (s: G.Cache)
    ensures G.Valid(g, s)
  {
    Replay(g, st.index.accesses)
  }

  lemma StoredReplays(g: G.Config, ix: P.Index, k: Key, c: real)
    requires Follows(g, ix) && IndexLike(g) && |ix.keys + {k}| <= g.maxsize
    ensures var s := Replay(g, ix.accesses);
      Replay(g, ix.accesses + [P.Stored(k, c)]) == G.Push(g, G.Store(g, s, k, G.Number(c)), k, G.Number(c))
  {
    hide G.Valid, Replay, G.Push, G.Store;
    var s := Replay(g, ix.accesses);
    ReplayOne(g, ix.accesses, P.Stored(k, c));
    Eviction.UnitCount(g, s);
    FollowsCount(g, ix);
    FollowsKeys(g, ix);
    if k in ix.keys {
      assert ix.keys + {k} == ix.keys;
    } else {
      assert |ix.keys + {k}| == |ix.keys| + 1;
    }
    assert Fits(g, s, k, c);
  }

  lemma FollowsKeys(g: G.Config, ix: P.Index)
    requires Follows(g, ix)
    ensures Replay(g, ix.accesses).data.Keys == ix.keys
  {
  }

  /** A put of the data manager is the cache's set with the row's cost. */
  lemma PutIsSet(cfg: M.Config, g: G.Config, st: M.State, id: Key, cost: real, pending: set<Key>)
    requires M.Proper(cfg) && Uses(cfg, g) && M.Agree(cfg, st, pending) && id in pending && Follows(g, st.index)
    ensures CacheOf(g, M.PutOne(cfg, st, id, cost, pending))
         == Unreported(G.SetItem(g, CacheOf(g, st), id, G.Number(cost)))
  {
    hide Replay, GdsfPolicy.GdsfPolicy, M.Agree, M.Clear, G.Valid, G.SetItem, G.Push, G.Store, G.PopMany, Follows,
         P.PopMany, P.Reported;
    M.RowsExist(cfg, st, pending, id);
    PutAtMost(cfg, st, pending);
    UsesIndexLike(cfg, g);
    var s := CacheOf(g, st);
    FollowsCount(g, st.index);
    FollowsKeys(g, st.index);
    SetIsDirect(g, s, id, G.Number(cost));
    var r := M.PutOne(cfg, st, id, cost, pending);
    if M.Overflows(cfg, st, id) {
      M.OverflowAgrees(cfg, st, pending);
      PopsFollow(g, st.index, cfg.cleanSize);
      var popped := P.PopMany(cfg.policy, st.index, cfg.cleanSize);
      ClearKeepsIndex(st.(index := popped), P.Reported(cfg.policy, st.index, cfg.cleanSize));
      RoomFor(popped.keys, id, cfg.maxsize);
      StoredReplays(g, popped, id, cost);
    } else {
      RoomFor(st.index.keys, id, cfg.maxsize);
      StoredReplays(g, st.index, id, cost);
    }
    ReplayIsUnreported(g, r.index.accesses);
  }

  lemma PutAtMost(cfg: M.Config, st: M.State, pending: set<Key>)
    requires M.Agree(cfg, st, pending)
    ensures |st.index.keys| <= cfg.maxsize
  {
  }

  /** A hit is the cache's read: of a live id it raises the frequency and prices it anew, of
      any other it does nothing. */
  lemma HitIsRead(cfg: M.Config, g: G.Config, st: M.State, id: Key)
    requires M.Proper(cfg) && Uses(cfg, g) && M.Agree(cfg, st, {}) && Follows(g, st.index)
    ensures CacheOf(g, M.Serve(cfg, st, M.Hit(id))) == G.GetItem(g, CacheOf(g, st), id)
    ensures id in LiveIds(st.tables) <==> id in CacheOf(g, st).data
  {
    hide M.Agree, M.Proper, G.Valid, Replay, G.GetItem, LiveIds, Follows, Uses;
    M.AgreeCounts(cfg, st);
    FollowsKeys(g, st.index);
    if id in st.index.keys {
      ReplayOne(g, st.index.accesses, P.Touched(id));
    } else {
      MissedRead(g, CacheOf(g, st), id);
    }
  }

  lemma MissedRead(cfg: G.Config, s: G.Cache, k: Key)
    requires G.Valid(cfg, s) && k !in s.data
    ensures G.GetItem(cfg, s, k) == s
  {
  }

  // ---------- runs ----------

  function Sets(ids: seq<Key>, costs: seq<real>): (ops: seq<G.Op>)
    requires |ids| == |costs|
    ensures |ops| == |ids| && forall i :: 0 <= i < |ids| ==> ops[i] == G.Set(ids[i], G.Number(costs[i]))
  {
    seq(|ids|, i requires 0 <= i < |ids| => G.Set(ids[i], G.Number(costs[i])))
  }

  lemma {:induction false} PutAllIsSets(cfg: M.Config, g: G.Config, st: M.State, ids: seq<Key>, costs: seq<real>)
    requires M.Proper(cfg) && Uses(cfg, g) && Distinct(ids) && |costs| == |ids|
    requires M.Agree(cfg, st, Members(ids)) && Follows(g, st.index)
    ensures CacheOf(g, M.PutAll(cfg, st, ids, costs)) == Unreported(G.Run(g, CacheOf(g, st), Sets(ids, costs)))
    decreases |ids|
  {
    hide M.Agree, M.PutOne, M.Proper, G.Valid, G.SetItem, CacheOf, Follows, Uses;
    UsesIndexLike(cfg, g);
    CacheUnreported(g, st);
    if |ids| != 0 {
      M.TailPending(ids);
      var u := M.PutOne(cfg, st, ids[0], costs[0], Members(ids));
      PutIsSet(cfg, g, st, ids[0], costs[0], Members(ids));
      PutOneFollows(cfg, g, st, ids[0], costs[0], Members(ids));
      PutAllIsSets(cfg, g, u, ids[1..], costs[1..]);
      var ops := Sets(ids, costs);
      assert ops[1..] == Sets(ids[1..], costs[1..]);
      RunWith(g, G.SetItem(g, CacheOf(g, st), ids[0], G.Number(costs[0])), [], ops[1..]);
    }
  }

  lemma UsesIndexLike(cfg: M.Config, g: G.Config)
    requires M.Proper(cfg) && Uses(cfg, g)
    ensures IndexLike(g) && G.Progressive(g)
  {
  }

  lemma CacheUnreported(g: G.Config, st: M.State)
    ensures Unreported(CacheOf(g, st)) == CacheOf(g, st)
  {
    ReplayIsUnreported(g, st.index.accesses);
  }

  /** What a request means to the cache. */
  function OpsOf(q: M.Request): (ops: seq<G.Op>)
    requires q.Save? ==> |q.ids| == |q.costs|
    ensures forall op :: op in ops ==> SetOrGet(op)
  {
    match q
    case Save(ids, _, costs) => Sets(ids, costs)
    case Hit(id) => [G.Get(id)]
    case _ => []
  }

  lemma ServeIsRun(cfg: M.Config, g: G.Config, st: M.State, q: M.Request)
    requires M.Proper(cfg) && Uses(cfg, g) && M.Agree(cfg, st, {}) && M.Admissible(st, q) && Follows(g, st.index)
    ensures CacheOf(g, M.Serve(cfg, st, q)) == Unreported(G.Run(g, CacheOf(g, st), OpsOf(q)))
  {
    hide M.Agree, M.Proper, M.PutAll, M.Inserted, G.Valid, G.GetItem, Replay, Follows, Uses;
    UsesIndexLike(cfg, g);
    CacheUnreported(g, st);
    match q
    case Save(ids, datas, costs) =>
      var ds := M.Normalized(cfg, datas);
      M.InsertedReady(cfg, st, ids, ds);
      M.InsertedIndex(st, ids, ds);
      PutAllIsSets(cfg, g, M.Inserted(st, ids, ds), ids, costs);
    case Hit(id) =>
      HitIsRead(cfg, g, st, id);
      CacheUnreported(g, M.Serve(cfg, st, q));
      OneOp(g, CacheOf(g, st), G.Get(id));
    case _ =>
  }

  lemma OneOp(g: G.Config, s: G.Cache, op: G.Op)
    requires G.Valid(g, s) && G.Progressive(g)
    ensures G.Run(g, s, [op]) == G.Step(g, s, op)
  {
    hide G.Valid, G.Step;
    assert [op][1..] == [];
    assert G.Run(g, G.Step(g, s, op), []) == G.Step(g, s, op);
  }

  function AllOps(qs: seq<M.Request>): (ops: seq<G.Op>)
    requires forall q: M.Request :: q in qs && q.Save? ==> |q.ids| == |q.costs|
    ensures forall op :: op in ops ==> SetOrGet(op)
  {
    if |qs| == 0 then [] else OpsOf(qs[0]) + AllOps(qs[1..])
  }

  lemma {:induction false} SavesHaveCosts(cfg: M.Config, st: M.State, qs: seq<M.Request>)
    requires M.Proper(cfg) && M.Agree(cfg, st, {}) && M.AllAdmissible(cfg, st, qs)
    ensures forall q: M.Request :: q in qs && q.Save? ==> |q.ids| == |q.costs|
    decreases |qs|
  {
    hide M.Agree, M.Proper, M.Serve;
    if |qs| != 0 {
      SavesHaveCosts(cfg, M.Serve(cfg, st, qs[0]), qs[1..]);
      assert qs == [qs[0]] + qs[1..];
    }
  }

  /** Every run of the data manager under GDSF is the run of the corresponding sets and reads
      on the cache: what holds of every run of the cache holds of the manager. */
  lemma {:induction false} RunIsRun(cfg: M.Config, g: G.Config, st: M.State, qs: seq<M.Request>)
    requires M.Proper(cfg) && Uses(cfg, g) && M.Agree(cfg, st, {}) && M.AllAdmissible(cfg, st, qs) && Follows(g, st.index)
    ensures forall q: M.Request :: q in qs && q.Save? ==> |q.ids| == |q.costs|
    ensures G.Progressive(g)
    ensures CacheOf(g, M.Run(cfg, st, qs)) == Unreported(G.Run(g, CacheOf(g, st), AllOps(qs)))
    decreases |qs|
  {
    hide M.Agree, M.Proper, M.Serve, M.Admissible, G.Valid, G.Step, CacheOf, Follows, Uses, OpsOf;
    UsesIndexLike(cfg, g);
    CacheUnreported(g, st);
    SavesHaveCosts(cfg, st, qs);
    if |qs| != 0 {
      var u := M.Serve(cfg, st, qs[0]);
      ServeIsRun(cfg, g, st, qs[0]);
      ServeFollows(cfg, g, st, qs[0]);
      RunIsRun(cfg, g, u, qs[1..]);
      var t := G.Run(g, CacheOf(g, st), OpsOf(qs[0]));
      RunConcat(g, CacheOf(g, st), OpsOf(qs[0]), AllOps(qs[1..]));
      RunWith(g, t, [], AllOps(qs[1..]));
    }
  }

  // ---------- frequencies and costs in the manager ----------

  lemma {:induction false} CountConcat<T>(a: seq<T>, b: seq<T>, x: T)
    ensures Frequency.Count(a + b, x) == Frequency.Count(a, x) + Frequency.Count(b, x)
    decreases |a|
  {
    if |a| == 0 {
      assert a + b == b;
    } else {
      assert (a + b)[1..] == a[1..] + b;
      CountConcat(a[1..], b, x);
    }
  }

  lemma {:induction false} ReadsAreHits(qs: seq<M.Request>, id: Key)
    requires forall q: M.Request :: q in qs && q.Save? ==> |q.ids| == |q.costs|
    ensures Frequency.Count(AllOps(qs), G.Get(id)) == Frequency.Count(qs, M.Hit(id))
    decreases |qs|
  {
    if |qs| != 0 {
      CountConcat(OpsOf(qs[0]), AllOps(qs[1..]), G.Get(id));
      if qs[0].Save? {
        Frequency.NoneCounted(OpsOf(qs[0]), G.Get(id));
      }
      ReadsAreHits(qs[1..], id);
    }
  }

  /** Over every run in which a live id is not evicted, its frequency in the cache grows by
      exactly its hits. */
  lemma FrequencyCountsHits(cfg: M.Config, g: G.Config, st: M.State, qs: seq<M.Request>, id: Key)
    requires M.Proper(cfg) && Uses(cfg, g) && M.Agree(cfg, st, {}) && M.AllAdmissible(cfg, st, qs) && Follows(g, st.index)
    requires id in LiveIds(st.tables)
    requires id !in Frequency.Since(CacheOf(g, st), CacheOf(g, M.Run(cfg, st, qs)))
    ensures var s, t := CacheOf(g, st), CacheOf(g, M.Run(cfg, st, qs));
      id in s.freq && id in t.freq && id in t.data && t.freq[id] == s.freq[id] + Frequency.Count(qs, M.Hit(id))
  {
    hide M.Agree, M.Proper, M.Run, M.AllAdmissible, G.Valid, G.Run, Follows, Uses, LiveIds, Replay, AllOps;
    M.AgreeCounts(cfg, st);
    FollowsKeys(g, st.index);
    RunIsRun(cfg, g, st, qs);
    ReadsAreHits(qs, id);
    G.KeysAgree(g, CacheOf(g, st));
    Frequency.FrequencyCountsReads(g, CacheOf(g, st), AllOps(qs), id);
  }

  lemma {:induction false} SetsPlace(g: G.Config, s: G.Cache, ids: seq<Key>, costs: seq<real>, i: nat)
    requires G.Valid(g, s) && IndexLike(g) && |ids| == |costs| && i < |ids| && Distinct(ids) && ids[i] !in s.data
    ensures var t := G.Run(g, s, Sets(ids, costs));
      ids[i] in t.data ==> t.data[ids[i]] == G.Number(costs[i]) && ids[i] in t.freq && t.freq[ids[i]] == 1
    decreases |ids|
  {
    hide G.Valid, G.SetItem, Operations.Formula;
    var u := G.SetItem(g, s, ids[0], G.Number(costs[0]));
    var lost := Operations.SetEffect(g, s, ids[0], G.Number(costs[0]));
    G.KeysAgree(g, s);
    assert Sets(ids, costs)[1..] == Sets(ids[1..], costs[1..]);
    if i == 0 {
      SetsSpare(g, u, ids[1..], costs[1..], ids[0]);
    } else {
      SetsPlace(g, u, ids[1..], costs[1..], i - 1);
    }
  }

  lemma {:induction false} SetsSpare(g: G.Config, s: G.Cache, ids: seq<Key>, costs: seq<real>, k: Key)
    requires G.Valid(g, s) && IndexLike(g) && |ids| == |costs| && k !in ids
    ensures var t := G.Run(g, s, Sets(ids, costs));
      k in t.data ==> Operations.SameAt(s, t, k)
    decreases |ids|
  {
    hide G.Valid, G.SetItem, Operations.Formula;
    G.KeysAgree(g, s);
    if |ids| > 0 {
      var u := G.SetItem(g, s, ids[0], G.Number(costs[0]));
      var lost := Operations.SetEffect(g, s, ids[0], G.Number(costs[0]));
      assert Sets(ids, costs)[1..] == Sets(ids[1..], costs[1..]);
      SetsSpare(g, u, ids[1..], costs[1..], k);
    }
  }

  /** An imported row that is still live enters the cache with its cost and frequency 1. */
  lemma ImportEnters(cfg: M.Config, g: G.Config, st: M.State, ids: seq<Key>, datas: seq<CacheData>, costs: seq<real>, i: nat)
    requires M.Proper(cfg) && Uses(cfg, g) && M.Agree(cfg, st, {}) && Follows(g, st.index)
    requires M.Fresh(st.tables, ids) && |datas| == |ids| == |costs| && i < |ids|
    requires ids[i] in LiveIds(M.Import(cfg, st, ids, datas, costs).tables)
    ensures var t := CacheOf(g, M.Import(cfg, st, ids, datas, costs));
      ids[i] in t.data && t.data[ids[i]] == G.Number(costs[i]) && ids[i] in t.freq && t.freq[ids[i]] == 1
  {
    NotLiveYet(cfg, st, ids, i);
    FollowsKeys(g, st.index);
    var r := M.Import(cfg, st, ids, datas, costs);
    M.AgreeCounts(cfg, r);
    hide M.Agree, M.Proper, M.Import, M.Fresh, G.Valid, G.Run, Replay, LiveIds, Uses;
    var q := M.Save(ids, datas, costs);
    assert r == M.Serve(cfg, st, q);
    ServeIsRun(cfg, g, st, q);
    ServeFollows(cfg, g, st, q);
    FollowsKeys(g, r.index);
    UsesIndexLike(cfg, g);
    M.FreshDistinct(st.tables, ids);
    SetsPlace(g, CacheOf(g, st), ids, costs, i);
  }

  lemma NotLiveYet(cfg: M.Config, st: M.State, ids: seq<Key>, i: nat)
    requires M.Agree(cfg, st, {}) && M.Fresh(st.tables, ids) && i < |ids|
    ensures ids[i] !in st.index.keys
  {
    M.AgreeCounts(cfg, st);
  }

  /** From its import on, the frequency of an id that is not evicted is 1 plus its hits. */
  lemma FrequencyIsOnePlusHits(cfg: M.Config, g: G.Config, st: M.State, ids: seq<Key>, datas: seq<CacheData>, costs: seq<real>,
                               qs: seq<M.Request>, i: nat)
    requires M.Proper(cfg) && Uses(cfg, g) && M.Agree(cfg, st, {}) && Follows(g, st.index)
    requires M.Fresh(st.tables, ids) && |datas| == |ids| == |costs| && i < |ids|
    requires ids[i] in LiveIds(M.Import(cfg, st, ids, datas, costs).tables)
    requires M.AllAdmissible(cfg, M.Import(cfg, st, ids, datas, costs), qs)
    requires var u := M.Import(cfg, st, ids, datas, costs);
      ids[i] !in Frequency.Since(CacheOf(g, u), CacheOf(g, M.Run(cfg, u, qs)))
    ensures var t := CacheOf(g, M.Run(cfg, M.Import(cfg, st, ids, datas, costs), qs));
      ids[i] in t.freq && t.freq[ids[i]] == 1 + Frequency.Count(qs, M.Hit(ids[i]))
  {
    hide M.Agree, M.Proper, M.Import, M.Fresh, M.Run, M.AllAdmissible, Follows, Uses, LiveIds, CacheOf, Frequency.Since;
    var u := M.Import(cfg, st, ids, datas, costs);
    ImportFollows(cfg, g, st, ids, datas, costs);
    ImportEnters(cfg, g, st, ids, datas, costs, i);
    FrequencyCountsHits(cfg, g, u, qs, ids[i]);
  }

  lemma ImportFollows(cfg: M.Config, g: G.Config, st: M.State, ids: seq<Key>, datas: seq<CacheData>, costs: seq<real>)
    requires M.Proper(cfg) && Uses(cfg, g) && M.Agree(cfg, st, {}) && Follows(g, st.index)
    requires M.Fresh(st.tables, ids) && |datas| == |ids| == |costs|
    ensures Follows(g, M.Import(cfg, st, ids, datas, costs).index)
  {
    hide M.Agree, M.Proper, M.Import, M.Fresh, Follows, Uses;
    var q := M.Save(ids, datas, costs);
    assert M.Import(cfg, st, ids, datas, costs) == M.Serve(cfg, st, q);
    ServeFollows(cfg, g, st, q);
  }
}
