/** The aging bound seen from the data manager: under GDSF every import costs at least 1,
    so an entry nobody asks for any more is soft-deleted after a bounded number of
    evictions, whatever else the manager is asked to do. */
module ManagerAging {
  import opened Basics
  import opened GdsfPaths
  import opened Inflation
  import opened Aging
  import G = GdsfModel
  import P = PolicyIndex
  import M = ManagerModel
  import GP = GdsfPolicy
  import Eviction
  import SqlStorage

  // ---------- histories ----------

  /** An access that leaves the keys in `spared` alone; what it stores costs at least 1. */
  predicate Sparing(a: P.Access, spared: set<Key>) {
    match a
    case Stored(k, c) => k !in spared && c >= 1.0
    case Touched(k) => k !in spared
    case Popped(_) => true
  }

  /** `h'` continues `h` with sparing accesses. */
  ghost predicate Grown(h: seq<P.Access>, h': seq<P.Access>, spared: set<Key>) {
    h <= h' && forall i :: |h| <= i < |h'| ==> Sparing(h'[i], spared)
  }

  /** Everything this history stores costs at least 1. */
  ghost predicate Priced(h: seq<P.Access>) {
    Grown([], h, {})
  }

  lemma GrownTrans(a: seq<P.Access>, b: seq<P.Access>, c: seq<P.Access>, spared: set<Key>)
    requires Grown(a, b, spared) && Grown(b, c, spared)
    ensures Grown(a, c, spared)
  {
    forall i | |a| <= i < |c|
      ensures Sparing(c[i], spared)
    {
      if i < |b| {
        assert c[i] == b[i];
      }
    }
  }

  lemma GrownSparesLess(a: seq<P.Access>, b: seq<P.Access>, spared: set<Key>)
    requires Grown(a, b, spared)
    ensures Grown(a, b, {})
  {
    forall i | |a| <= i < |b|
      ensures Sparing(b[i], {})
    {
      assert Sparing(b[i], spared);
    }
  }

  lemma GrownByOne(h: seq<P.Access>, a: P.Access, spared: set<Key>)
    requires Sparing(a, spared)
    ensures Grown(h, h + [a], spared)
  {
  }

  // ---------- what the data manager adds to the history ----------

  lemma {:induction false} PopsGrow(policy: P.Policy, ix: P.Index, n: nat, spared: set<Key>)
    ensures Grown(ix.accesses, P.PopMany(policy, ix, n).accesses, spared)
    decreases n
  {
    hide Grown;
    if n == 0 || ix.keys == {} {
      NothingGrows(ix.accesses, spared);
    } else {
      var u := P.Pop(policy, ix);
      GrownByOne(ix.accesses, P.Popped(P.Next(policy, ix)), spared);
      PopsGrow(policy, u, n - 1, spared);
      GrownTrans(ix.accesses, u.accesses, P.PopMany(policy, ix, n).accesses, spared);
    }
  }

  lemma NothingGrows(h: seq<P.Access>, spared: set<Key>)
    ensures Grown(h, h, spared)
  {
  }

  lemma PutOneGrows(cfg: M.Config, st: M.State, id: Key, cost: real, pending: set<Key>, spared: set<Key>)
    requires M.Proper(cfg) && M.Agree(cfg, st, pending) && id in pending && id !in spared && cost >= 1.0
    ensures Grown(st.index.accesses, M.PutOne(cfg, st, id, cost, pending).index.accesses, spared)
  {
    M.RowsExist(cfg, st, pending, id);
    hide Grown, M.Agree, M.Proper, M.Clear, P.PopMany, P.Reported;
    var popped := P.PopMany(cfg.policy, st.index, cfg.cleanSize);
    PopsGrow(cfg.policy, st.index, cfg.cleanSize, spared);
    NothingGrows(st.index.accesses, spared);
    GP.ClearKeepsIndex(st.(index := popped), P.Reported(cfg.policy, st.index, cfg.cleanSize));
    var room := if M.Overflows(cfg, st, id) then M.Overflow(cfg, st) else st;
    GrownByOne(room.index.accesses, P.Stored(id, cost), spared);
    GrownTrans(st.index.accesses, room.index.accesses, room.index.accesses + [P.Stored(id, cost)], spared);
  }

  predicate AllAtLeastOne(costs: seq<real>) {
    forall i :: 0 <= i < |costs| ==> costs[i] >= 1.0
  }

  lemma {:induction false} PutAllGrows(cfg: M.Config, st: M.State, ids: seq<Key>, costs: seq<real>, spared: set<Key>)
    requires M.Proper(cfg) && Distinct(ids) && |costs| == |ids| && M.Agree(cfg, st, Members(ids))
    requires Members(ids) !! spared && AllAtLeastOne(costs)
    ensures Grown(st.index.accesses, M.PutAll(cfg, st, ids, costs).index.accesses, spared)
    decreases |ids|
  {
    hide Grown, M.Agree, M.Proper, M.PutOne;
    if |ids| == 0 {
      NothingGrows(st.index.accesses, spared);
    } else {
      M.TailPending(ids);
      var u := M.PutOne(cfg, st, ids[0], costs[0], Members(ids));
      PutOneGrows(cfg, st, ids[0], costs[0], Members(ids), spared);
      PutAllGrows(cfg, u, ids[1..], costs[1..], spared);
      GrownTrans(st.index.accesses, u.index.accesses, M.PutAll(cfg, st, ids, costs).index.accesses, spared);
    }
  }

  /** A request that neither saves nor hits a spared id; imports cost at least 1 a row. */
  predicate SparingRequest(q: M.Request, spared: set<Key>) {
    match q
    case Save(ids, _, costs) => Members(ids) !! spared && AllAtLeastOne(costs)
    case Hit(id) => id !in spared
    case _ => true
  }

  lemma ServeGrows(cfg: M.Config, st: M.State, q: M.Request, spared: set<Key>)
    requires M.Proper(cfg) && M.Agree(cfg, st, {}) && M.Admissible(st, q) && SparingRequest(q, spared)
    ensures Grown(st.index.accesses, M.Serve(cfg, st, q).index.accesses, spared)
  {
    hide M.Agree, M.Proper, M.PutAll, M.Inserted, Grown, Members;
    NothingGrows(st.index.accesses, spared);
    match q
    case Save(ids, datas, costs) =>
      var ds := M.Normalized(cfg, datas);
      M.InsertedReady(cfg, st, ids, ds);
      M.InsertedIndex(st, ids, ds);
      PutAllGrows(cfg, M.Inserted(st, ids, ds), ids, costs, spared);
    case Hit(id) =>
      GrownByOne(st.index.accesses, P.Touched(id), spared);
    case _ =>
  }

  lemma {:induction false} RunGrows(cfg: M.Config, st: M.State, qs: seq<M.Request>, spared: set<Key>)
    requires M.Proper(cfg) && M.Agree(cfg, st, {}) && M.AllAdmissible(cfg, st, qs)
    requires forall q :: q in qs ==> SparingRequest(q, spared)
    ensures Grown(st.index.accesses, M.Run(cfg, st, qs).index.accesses, spared)
    decreases |qs|
  {
    hide M.Agree, M.Proper, M.Serve, M.Admissible, Grown, SparingRequest;
    if |qs| == 0 {
      NothingGrows(st.index.accesses, spared);
    } else {
      var u := M.Serve(cfg, st, qs[0]);
      ServeGrows(cfg, st, qs[0], spared);
      RunGrows(cfg, u, qs[1..], spared);
      GrownTrans(st.index.accesses, u.index.accesses, M.Run(cfg, st, qs).index.accesses, spared);
    }
  }

  /** The puts of `__init__` cost 1 each, so the bound applies from the start. */
  lemma StartPriced(cfg: M.Config, t: SqlStorage.Tables, vectors: map<Key, SqlStorage.Vector>, ids: seq<Key>)
    requires M.Proper(cfg) && SqlStorage.Owned(t) && M.VectorsMatch(t, vectors)
    requires Distinct(ids) && Members(ids) == SqlStorage.LiveIds(t)
    ensures Priced(M.Start(cfg, t, vectors, ids).index.accesses)
  {
    hide M.PutAll, M.Proper, Grown;
    var st := M.State(t, vectors, P.Index({}, []), 0);
    assert {} + Members(ids) == Members(ids);
    PutAllGrows(cfg, st, ids, seq(|ids|, _ => 1.0), {});
  }

  // ---------- histories as paths of the cache ----------

  function MoveOf(a: P.Access): Move {
    match a
    case Stored(k, c) => Put(k, G.Number(c))
    case Touched(k) => Hit(k)
    case Popped(_) => EvictOne
  }

  lemma ApplyIsMove(cfg: G.Config, s: G.Cache, a: P.Access) returns (ms: seq<Move>)
    requires G.Valid(cfg, s)
    ensures ms == [] || ms == [MoveOf(a)]
    ensures Path(cfg, s, ms, GP.Apply(cfg, s, a))
  {
    hide G.Valid, G.Evict, G.Push;
    if Enabled(cfg, s, MoveOf(a)) {
      ms := [MoveOf(a)];
      Single(cfg, s, MoveOf(a));
    } else {
      ms := [];
    }
  }

  /** What a longer history does to the cache is a path of its own accesses. */
  lemma {:induction false} ReplayPath(cfg: G.Config, h: seq<P.Access>, h': seq<P.Access>, spared: set<Key>)
      returns (ms: seq<Move>)
    requires Grown(h, h', spared)
    ensures Path(cfg, GP.Replay(cfg, h), ms, GP.Replay(cfg, h'))
    ensures forall m :: m in ms ==> exists a :: Sparing(a, spared) && m == MoveOf(a)
    decreases |h'|
  {
    hide G.Valid, GP.Apply, Path, GP.Replay, Sparing;
    if h == h' {
      ms := [];
      EmptyPath(cfg, GP.Replay(cfg, h));
    } else {
      var front, a := h'[..|h'| - 1], h'[|h'| - 1];
      assert h' == front + [a];
      assert forall i :: |h| <= i < |front| ==> front[i] == h'[i];
      var first := ReplayPath(cfg, h, front, spared);
      GP.ReplayOne(cfg, front, a);
      var s := GP.Replay(cfg, front);
      var last := ApplyIsMove(cfg, s, a);
      Join(cfg, GP.Replay(cfg, h), first, s, last, GP.Apply(cfg, s, a));
      ms := first + last;
    }
  }

  lemma EmptyPath(cfg: G.Config, s: G.Cache)
    requires G.Valid(cfg, s)
    ensures Path(cfg, s, [], s)
  {
  }

  ghost predicate UnitSized(cfg: G.Config) {
    cfg.variant == G.Gdsf && Eviction.UnitSizes(cfg)
  }

  lemma UnitDensity(cfg: G.Config, c: real)
    requires UnitSized(cfg)
    ensures G.Density(cfg, G.Number(c)) == c
  {
  }

  lemma SparingBystanders(cfg: G.Config, ms: seq<Move>, x: Key)
    requires UnitSized(cfg)
    requires forall m :: m in ms ==> exists a :: Sparing(a, {x}) && m == MoveOf(a)
    ensures forall m :: m in ms ==> Bystander(cfg, m, x, 1.0)
  {
    forall m | m in ms
      ensures Bystander(cfg, m, x, 1.0)
    {
      var a :| Sparing(a, {x}) && m == MoveOf(a);
      if a.Stored? {
        UnitDensity(cfg, a.cost);
      }
    }
  }

  /** A cache fed only with costs of at least 1 meets what the aging bound asks for. */
  lemma {:induction false} PricedIsWorthy(cfg: G.Config, h: seq<P.Access>)
    requires UnitSized(cfg) && Priced(h)
    ensures Floored(cfg, GP.Replay(cfg, h)) && Worthy(cfg, GP.Replay(cfg, h), 1.0)
    decreases |h|
  {
    hide G.Valid, GP.Apply, Floored, Worthy;
    if |h| == 0 {
      EmptyFloored(cfg);
      EmptyWorthy(cfg, 1.0);
    } else {
      var front, a := h[..|h| - 1], h[|h| - 1];
      assert h == front + [a];
      assert forall i :: 0 <= i < |front| ==> front[i] == h[i];
      PricedIsWorthy(cfg, front);
      var s := GP.Replay(cfg, front);
      assert Sparing(a, {});
      if Enabled(cfg, s, MoveOf(a)) {
        AccessKeepsWorth(cfg, s, a);
      } else {
        DisabledChangesNothing(cfg, s, a);
      }
    }
  }

  lemma DisabledChangesNothing(cfg: G.Config, s: G.Cache, a: P.Access)
    requires G.Valid(cfg, s) && !Enabled(cfg, s, MoveOf(a))
    ensures GP.Apply(cfg, s, a) == s
  {
    hide G.Valid, G.Evict, G.Push, G.Store, G.Touch;
  }

  lemma AccessKeepsWorth(cfg: G.Config, s: G.Cache, a: P.Access)
    requires G.Valid(cfg, s) && UnitSized(cfg) && Floored(cfg, s) && Worthy(cfg, s, 1.0)
    requires Sparing(a, {}) && Enabled(cfg, s, MoveOf(a))
    ensures Floored(cfg, GP.Apply(cfg, s, a)) && Worthy(cfg, GP.Apply(cfg, s, a), 1.0)
  {
    hide G.Valid, Floored, Worthy, Apply, GP.Apply, G.Density, Enabled;
    ApplyAgrees(cfg, s, a);
    if a.Stored? {
      UnitDensity(cfg, a.cost);
    }
    MoveFloored(cfg, s, MoveOf(a));
    MoveWorthy(cfg, s, MoveOf(a), 1.0);
  }

  lemma ApplyAgrees(cfg: G.Config, s: G.Cache, a: P.Access)
    requires G.Valid(cfg, s) && Enabled(cfg, s, MoveOf(a))
    ensures GP.Apply(cfg, s, a) == Apply(cfg, s, MoveOf(a))
  {
    hide G.Valid, G.Evict, G.Push, G.Store;
  }

  /** A key that is resident at the end of a path that never stores it was not evicted on
      the way. */
  lemma {:induction false} ResidentWasNotEvicted(cfg: G.Config, s: G.Cache, ms: seq<Move>, t: G.Cache, x: Key)
    requires G.Valid(cfg, s) && Path(cfg, s, ms, t) && x in t.data
    requires forall m :: m in ms ==> !(m.Put? && m.key == x)
    ensures x in s.data && x !in Evicted(cfg, s, ms)
    decreases |ms|
  {
    hide G.Valid, Apply, G.Victim;
    if |ms| != 0 {
      var m, u := ms[0], Apply(cfg, s, ms[0]);
      ResidentWasNotEvicted(cfg, u, ms[1..], t, x);
      MoveResidents(cfg, s, m, x);
    }
  }

  lemma MoveResidents(cfg: G.Config, s: G.Cache, m: Move, x: Key)
    requires G.Valid(cfg, s) && Enabled(cfg, s, m) && !(m.Put? && m.key == x)
    ensures x in Apply(cfg, s, m).data ==> x in s.data && (m.EvictOne? ==> G.Victim(cfg, s).key != x)
  {
    hide G.Valid, G.Evict, G.Victim, G.Weight, G.Priority;
    if m.EvictOne? {
      Eviction.EvictTakesVictim(cfg, s);
    }
  }

  /** The bound on one stretch of history. */
  lemma HistoryAges(cfg: G.Config, h: seq<P.Access>, h': seq<P.Access>, x: Key)
    requires UnitSized(cfg) && Priced(h) && Grown(h, h', {x}) && x in GP.Replay(cfg, h).data
    ensures var s, t := GP.Replay(cfg, h), GP.Replay(cfg, h');
      && x in s.prio && s.inflation <= s.prio[x] && cfg.maxsize >= 1
      && (|t.past.evicted| > |s.past.evicted| + Grace(cfg.maxsize, s.prio[x], s.inflation, 1.0) ==> x !in t.data)
  {
    hide G.Valid, Path, Worthy, Floored, Grace, Slack, Crowd, Evicted, GP.Replay, Grown, Sparing;
    var s, t := GP.Replay(cfg, h), GP.Replay(cfg, h');
    PricedIsWorthy(cfg, h);
    ResidentAboveFloor(cfg, s, x);
    var ms := ReplayPath(cfg, h, h', {x});
    SparingBystanders(cfg, ms, x);
    PathEvicts(cfg, s, ms, t);
    var b := Grace(cfg.maxsize, s.prio[x], s.inflation, 1.0);
    if |t.past.evicted| > |s.past.evicted| + b && x in t.data {
      G.KeysAgree(cfg, s);
      SizableTotalCount(cfg, s);
      InitialSlack(s, x, cfg.maxsize, 1.0);
      SizableCrowd(cfg, s, ms);
      AgingPath(cfg, s, ms, t, x, s.inflation + 1.0, cfg.maxsize, 1.0, b);
      ResidentWasNotEvicted(cfg, s, ms, t, x);
      assert false;
    }
  }

  /** The aging bound through the data manager.  Start anywhere costs have been at least 1,
      with `x` live; then, in any run that neither hits nor re-imports `x`, whatever it
      saves, hits, joins or drops besides, `x` is no longer live once `Grace + 1` more ids
      have been evicted, which is at most maxsize * (floor(P - L) + 1). */
  lemma UnusedRowIsSoftDeleted(cfg: M.Config, g: G.Config, st: M.State, qs: seq<M.Request>, x: Key)
    requires M.Proper(cfg) && GP.Uses(cfg, g) && M.Agree(cfg, st, {}) && M.AllAdmissible(cfg, st, qs)
    requires GP.Follows(g, st.index) && Priced(st.index.accesses) && x in SqlStorage.LiveIds(st.tables)
    requires forall q :: q in qs ==> SparingRequest(q, {x})
    ensures var r := M.Run(cfg, st, qs); var s, t := GP.Replay(g, st.index.accesses), GP.Replay(g, r.index.accesses);
      && x in s.prio && s.inflation <= s.prio[x] && g.maxsize >= 1 && Priced(r.index.accesses)
      && (|t.past.evicted| > |s.past.evicted| + Grace(g.maxsize, s.prio[x], s.inflation, 1.0) ==>
            x !in SqlStorage.LiveIds(r.tables))
  {
    M.AgreeCounts(cfg, st);
    assert UnitSized(g);
    hide M.Agree, M.Proper, M.Run, M.AllAdmissible, GP.Replay, Grace, Grown, SparingRequest, SqlStorage.LiveIds, GP.Uses;
    RunGrows(cfg, st, qs, {x});
    GP.RunFollows(cfg, g, st, qs);
    var h, h' := st.index.accesses, M.Run(cfg, st, qs).index.accesses;
    GrownSparesLess(h, h', {x});
    GrownTrans([], h, h', {});
    HistoryAges(g, h, h', x);
  }
}
