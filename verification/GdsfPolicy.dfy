/** GDSF as the data manager's eviction policy: the eviction index of SSDataManager is a
    GDSF cache seen through its access history. */
module GdsfPolicy {
  import opened Basics
  import G = GdsfModel
  import P = PolicyIndex
  import M = ManagerModel
  import Eviction
  import SqlStorage

  function GdsfConfig(maxsize: nat, cleanSize: nat): G.Config {
    G.Config(maxsize, _ => 1, G.Gdsf, G.Batched(cleanSize))
  }

  predicate Fits(cfg: G.Config, s: G.Cache, k: Key, c: real) {
    s.currsize + cfg.getsizeof(G.Number(c)) - (if k in s.data then cfg.getsizeof(s.data[k]) else 0) <= cfg.maxsize
  }

  /** One access on the cache; a pop takes the cache's own victim. */
  ghost function Apply(cfg: G.Config, s: G.Cache, a: P.Access): (r: G.Cache)
    requires G.Valid(cfg, s)
    ensures G.Valid(cfg, r)
  {
    match a
    case Stored(k, c) =>
      if Fits(cfg, s, k, c) then
        G.StorePushValid(cfg, s, k, G.Number(c));
        G.Push(cfg, G.Store(cfg, s, k, G.Number(c)), k, G.Number(c))
      else s
    case Touched(k) => G.GetItem(cfg, s, k)
    case Popped(_) => if s.data == map[] then s else G.Evict(cfg, s)
  }

  /** The GDSF cache that a history leads to. */
  ghost function Replay(cfg: G.Config, h: seq<P.Access>): (s: G.Cache)
    ensures G.Valid(cfg, s)
    decreases |h|
  {
    if |h| == 0 then G.EmptyValid(cfg); G.Empty()
    else Apply(cfg, Replay(cfg, h[..|h| - 1]), h[|h| - 1])
  }

  lemma ReplayOne(cfg: G.Config, h: seq<P.Access>, a: P.Access)
    ensures Replay(cfg, h + [a]) == Apply(cfg, Replay(cfg, h), a)
  {
    assert (h + [a])[..|h|] == h;
  }

  /** What a GDSF cache with this history evicts next. */
  ghost function Choice(cfg: G.Config, h: seq<P.Access>, keys: set<Key>): (k: Key)
    ensures keys != {} ==> k in keys
  {
    var s := Replay(cfg, h);
    if s.data != map[] && s.data.Keys == keys then G.Victim(cfg, s).key
    else if keys != {} then var k :| k in keys; k
    else Nobody
  }

  /** Stands for the answer to a question nobody asks: the victim of an empty index. */
  ghost const Nobody: Key

  ghost function GdsfPolicy(cfg: G.Config): (p: P.Policy)
    ensures P.Sound(p)
  {
    (h, keys) => Choice(cfg, h, keys)
  }

  /** The index is the key set of the cache its history leads to. */
  ghost predicate Follows(cfg: G.Config, ix: P.Index) {
    Replay(cfg, ix.accesses).data.Keys == ix.keys
  }

  lemma SameKeys(s: G.Cache, keys: set<Key>)
    requires s.data.Keys == keys
    ensures s.data == map[] <==> keys == {}
    ensures |s.data| == |keys|
  {
    if keys != {} {
      var k :| k in keys;
      assert k in s.data;
    }
  }

  lemma PopFollows(cfg: G.Config, ix: P.Index)
    requires Follows(cfg, ix) && ix.keys != {}
    ensures Replay(cfg, ix.accesses).data != map[]
    ensures P.Next(GdsfPolicy(cfg), ix) == G.Victim(cfg, Replay(cfg, ix.accesses)).key
    ensures var u := P.Pop(GdsfPolicy(cfg), ix);
      Follows(cfg, u) && Replay(cfg, u.accesses) == G.Evict(cfg, Replay(cfg, ix.accesses))
  {
    hide G.Valid, G.Victim, G.Evict, Replay;
    var s := Replay(cfg, ix.accesses);
    SameKeys(s, ix.keys);
    var k := P.Next(GdsfPolicy(cfg), ix);
    ReplayOne(cfg, ix.accesses, P.Popped(k));
    Eviction.EvictTakesVictim(cfg, s);
    assert (s.data - {k}).Keys == s.data.Keys - {k};
  }

  lemma {:induction false} PopsFollow(cfg: G.Config, ix: P.Index, n: nat)
    requires Follows(cfg, ix) && n <= |ix.keys|
    ensures var s := Replay(cfg, ix.accesses); var u := P.PopMany(GdsfPolicy(cfg), ix, n);
      && n <= |s.data| && P.Victims(GdsfPolicy(cfg), ix, n) == G.Victims(cfg, s, n)
      && Follows(cfg, u) && Replay(cfg, u.accesses) == G.PopMany(cfg, s, n)
    decreases n
  {
    hide G.Valid, G.Victim, G.Evict, Replay, GdsfPolicy, P.Next, P.Pop, Follows, P.Sound;
    var s := Replay(cfg, ix.accesses);
    FollowsCount(cfg, ix);
    if n != 0 {
      PopFollows(cfg, ix);
      var u := P.Pop(GdsfPolicy(cfg), ix);
      P.NextResides(GdsfPolicy(cfg), ix);
      PopsFollow(cfg, u, n - 1);
    }
  }

  lemma FollowsCount(cfg: G.Config, ix: P.Index)
    requires Follows(cfg, ix)
    ensures |Replay(cfg, ix.accesses).data| == |ix.keys|
  {
    SameKeys(Replay(cfg, ix.accesses), ix.keys);
  }

  /** At an overflow of the data manager under GDSF, the ids it soft-deletes are exactly the
      `cleanSize` ids of least GDSF priority, lowest first. */
  lemma OverflowSoftDeletesTheLowest(cfg: G.Config, ix: P.Index, n: nat)
    requires Follows(cfg, ix) && n <= |ix.keys|
    ensures Eviction.Lowest(Replay(cfg, ix.accesses).prio, P.Reported(GdsfPolicy(cfg), ix, n))
    ensures |P.Reported(GdsfPolicy(cfg), ix, n)| == n
  {
    hide G.Valid, Replay, G.Victims, Eviction.Lowest, GdsfPolicy, P.Victims;
    PopsFollow(cfg, ix, n);
    Eviction.PopsTakeTheLowest(cfg, Replay(cfg, ix.accesses), n);
  }

  lemma StoreFollows(cfg: G.Config, ix: P.Index, k: Key, c: real)
    requires Follows(cfg, ix) && Eviction.UnitSizes(cfg) && |ix.keys + {k}| <= cfg.maxsize
    ensures Follows(cfg, P.Store(ix, k, c))
  {
    hide G.Valid, Replay, G.Push;
    var s := Replay(cfg, ix.accesses);
    Eviction.UnitCount(cfg, s);
    FollowsCount(cfg, ix);
    ReplayOne(cfg, ix.accesses, P.Stored(k, c));
    if k in ix.keys {
      assert ix.keys + {k} == ix.keys;
    } else {
      assert |ix.keys + {k}| == |ix.keys| + 1;
    }
    PushKeepsData(cfg, G.Store(cfg, s, k, G.Number(c)), k, G.Number(c));
  }

  lemma PushKeepsData(cfg: G.Config, s: G.Cache, k: Key, v: G.Value)
    requires k in s.freq
    ensures G.Push(cfg, s, k, v).data == s.data
  {
  }

  lemma TouchFollows(cfg: G.Config, ix: P.Index, k: Key)
    requires Follows(cfg, ix)
    ensures Follows(cfg, P.Touch(ix, k))
  {
    hide G.Valid, Replay;
    if k in ix.keys {
      ReplayOne(cfg, ix.accesses, P.Touched(k));
    }
  }

  // ---------- runs of the data manager ----------

  lemma EmptyFollows(cfg: G.Config)
    ensures Follows(cfg, P.Index({}, []))
  {
  }

  ghost predicate Uses(cfg: M.Config, g: G.Config) {
    && g == GdsfConfig(cfg.maxsize, cfg.cleanSize) && cfg.policy == GdsfPolicy(g)
  }

  lemma PutOneFollows(cfg: M.Config, g: G.Config, st: M.State, id: Key, cost: real, pending: set<Key>)
    requires M.Proper(cfg) && Uses(cfg, g) && M.Agree(cfg, st, pending) && id in pending && Follows(g, st.index)
    ensures Follows(g, M.PutOne(cfg, st, id, cost, pending).index)
  {
    M.RowsExist(cfg, st, pending, id);
    hide Replay, GdsfPolicy, M.VectorsMatch, SqlStorage.Owned, SqlStorage.LiveIds, M.Clear;
    if M.Overflows(cfg, st, id) {
      M.OverflowAgrees(cfg, st, pending);
      var room := M.Overflow(cfg, st);
      PopsFollow(g, st.index, cfg.cleanSize);
      ClearKeepsIndex(st.(index := P.PopMany(cfg.policy, st.index, cfg.cleanSize)),
                      P.Reported(cfg.policy, st.index, cfg.cleanSize));
      RoomFor(room.index.keys, id, cfg.maxsize);
      StoreFollows(g, room.index, id, cost);
    } else {
      RoomFor(st.index.keys, id, cfg.maxsize);
      StoreFollows(g, st.index, id, cost);
    }
  }

  lemma RoomFor(keys: set<Key>, id: Key, maxsize: nat)
    requires |keys| + 1 <= maxsize || (id in keys && |keys| <= maxsize)
    ensures |keys + {id}| <= maxsize
  {
    if id in keys {
      assert keys + {id} == keys;
    }
  }

  lemma ClearKeepsIndex(st: M.State, ks: seq<Key>)
    requires st.tables.questions != map[]
    ensures M.Clear(st, ks).index == st.index
  {
    M.MarkedNonEmpty(st.tables, Members(ks));
  }

  lemma {:induction false} PutAllFollows(cfg: M.Config, g: G.Config, st: M.State, ids: seq<Key>, costs: seq<real>)
    requires M.Proper(cfg) && Uses(cfg, g) && Distinct(ids) && |costs| == |ids|
    requires M.Agree(cfg, st, Members(ids)) && Follows(g, st.index)
    ensures Follows(g, M.PutAll(cfg, st, ids, costs).index)
    decreases |ids|
  {
    hide M.Agree, M.PutOne, Follows, Uses, M.Proper;
    if |ids| != 0 {
      M.TailPending(ids);
      PutOneFollows(cfg, g, st, ids[0], costs[0], Members(ids));
      PutAllFollows(cfg, g, M.PutOne(cfg, st, ids[0], costs[0], Members(ids)), ids[1..], costs[1..]);
    }
  }

  /** The puts of `__init__` already follow the policy. */
  lemma StartFollows(cfg: M.Config, g: G.Config, t: SqlStorage.Tables, vectors: map<Key, SqlStorage.Vector>, ids: seq<Key>)
    requires M.Proper(cfg) && Uses(cfg, g) && SqlStorage.Owned(t) && M.VectorsMatch(t, vectors)
    requires Distinct(ids) && Members(ids) == SqlStorage.LiveIds(t)
    ensures Follows(g, M.Start(cfg, t, vectors, ids).index)
  {
    hide Follows, Uses, M.PutAll, M.Proper;
    EmptyFollows(g);
    var st := M.State(t, vectors, P.Index({}, []), 0);
    assert {} + Members(ids) == Members(ids);
    PutAllFollows(cfg, g, st, ids, seq(|ids|, _ => 1.0));
  }

  lemma ServeFollows(cfg: M.Config, g: G.Config, st: M.State, q: M.Request)
    requires M.Proper(cfg) && Uses(cfg, g) && M.Agree(cfg, st, {}) && M.Admissible(st, q) && Follows(g, st.index)
    ensures Follows(g, M.Serve(cfg, st, q).index)
  {
    hide M.Agree, Follows, Uses, M.Proper, M.PutAll, M.Inserted;
    match q
    case Save(ids, datas, costs) =>
      M.InsertedReady(cfg, st, ids, M.Normalized(cfg, datas));
      M.InsertedIndex(st, ids, M.Normalized(cfg, datas));
      PutAllFollows(cfg, g, M.Inserted(st, ids, M.Normalized(cfg, datas)), ids, costs);
    case Hit(id) => TouchFollows(g, st.index, id);
    case _ =>
  }

  /** Through every run of the data manager under GDSF, its live rows are exactly the
      residents of the GDSF cache that the accesses describe. */
  lemma {:induction false} RunFollows(cfg: M.Config, g: G.Config, st: M.State, qs: seq<M.Request>)
    requires M.Proper(cfg) && Uses(cfg, g) && M.Agree(cfg, st, {}) && M.AllAdmissible(cfg, st, qs)
    requires Follows(g, st.index)
    ensures var r := M.Run(cfg, st, qs);
      Follows(g, r.index) && Replay(g, r.index.accesses).data.Keys == SqlStorage.LiveIds(r.tables)
    decreases |qs|
  {
    M.AgreeCounts(cfg, M.Run(cfg, st, qs));
    hide M.Agree, Uses, M.Proper, M.Serve, M.Admissible, Replay;
    if |qs| != 0 {
      ServeFollows(cfg, g, st, qs[0]);
      RunFollows(cfg, g, M.Serve(cfg, st, qs[0]), qs[1..]);
    }
  }
}
