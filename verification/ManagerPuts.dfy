/** What putting ids into the eviction index does, for any policy: what the policy is told,
    what is evicted and when, and what start-up and an import leave behind. */
module ManagerPuts {
  import opened Basics
  import opened SqlStorage
  import opened PolicyIndex
  import M = ManagerModel

  /** The keys popped in a history. */
  function PoppedIn(h: seq<Access>): set<Key> {
    set a | a in h && a.Popped? :: a.key
  }

  lemma PoppedInPops(ks: seq<Key>)
    ensures PoppedIn(Pops(ks)) == Members(ks)
  {
    forall k | k in ks
      ensures k in PoppedIn(Pops(ks))
    {
      var i :| 0 <= i < |ks| && ks[i] == k;
      assert Pops(ks)[i] == Popped(k);
    }
  }

  lemma PoppedInConcat(a: seq<Access>, b: seq<Access>)
    ensures PoppedIn(a + b) == PoppedIn(a) + PoppedIn(b)
  {
  }

  // ---------- one put ----------

  /** From `st` to `r` the keys `ks` have been evicted and `id` put: none while there is room,
      and `clean_size` of them at a full index, where they are what leaves the live rows. */
  ghost predicate ToldOne(cfg: M.Config, st: M.State, r: M.State, id: Key, cost: real, ks: seq<Key>) {
    && r.index.accesses == st.index.accesses + Pops(ks) + [Stored(id, cost)]
    && LiveIds(r.tables) == LiveIds(st.tables) - Members(ks)
    && id in r.index.keys && |ks| == (if |st.index.keys| < cfg.maxsize then 0 else cfg.cleanSize)
    && (|st.index.keys| < cfg.maxsize ==> r == st.(index := r.index) && |r.index.keys| == |st.index.keys| + 1)
  }

  lemma PutOneTells(cfg: M.Config, st: M.State, id: Key, cost: real, pending: set<Key>) returns (ks: seq<Key>)
    requires M.Proper(cfg) && M.Agree(cfg, st, pending) && id in pending
    ensures ToldOne(cfg, st, M.PutOne(cfg, st, id, cost, pending), id, cost, ks)
  {
    hide M.Agree, M.Clear, LiveIds, Sound, PopMany, Victims, GetData, M.Bounded;
    M.RowsExist(cfg, st, pending, id);
    AgreeFacts(cfg, st, pending);
    if M.Overflows(cfg, st, id) {
      M.OverflowAgrees(cfg, st, pending);
      ks := Victims(cfg.policy, st.index, cfg.cleanSize);
      VictimsLeave(cfg.policy, st.index, cfg.cleanSize);
      PopManyTells(cfg.policy, st.index, cfg.cleanSize);
      ClearKeepsIndex(st.(index := PopMany(cfg.policy, st.index, cfg.cleanSize)), ks);
      AgreeFacts(cfg, M.Overflow(cfg, st), pending);
    } else {
      ks := [];
      assert st.index.accesses + Pops([]) == st.index.accesses;
    }
  }

  lemma AgreeFacts(cfg: M.Config, st: M.State, pending: set<Key>)
    requires M.Agree(cfg, st, pending)
    ensures LiveIds(st.tables) == st.index.keys + pending && st.index.keys !! pending && |st.index.keys| <= cfg.maxsize
  {
  }

  lemma ClearKeepsIndex(st: M.State, ks: seq<Key>)
    requires st.tables.questions != map[]
    ensures M.Clear(st, ks).index == st.index
  {
    M.MarkedNonEmpty(st.tables, Members(ks));
  }

  // ---------- many puts ----------

  /** Between the histories `h` and `h'` the policy has been told of exactly these stores, and
      of evictions; the live ids shrink by what was popped. */
  ghost predicate Told(st: M.State, r: M.State, ids: seq<Key>, costs: seq<real>, news: seq<Access>)
    requires |ids| == |costs|
  {
    && r.index.accesses == st.index.accesses + news
    && Unpopped(news) == Stores(ids, costs)
    && LiveIds(r.tables) == LiveIds(st.tables) - PoppedIn(news)
  }

  function Stores(ids: seq<Key>, costs: seq<real>): (h: seq<Access>)
    requires |ids| == |costs|
    ensures |h| == |ids| && forall i :: 0 <= i < |ids| ==> h[i] == Stored(ids[i], costs[i])
  {
    seq(|ids|, i requires 0 <= i < |ids| => Stored(ids[i], costs[i]))
  }

  lemma OnePut(ks: seq<Key>, id: Key, cost: real)
    ensures Unpopped(Pops(ks) + [Stored(id, cost)]) == [Stored(id, cost)]
    ensures PoppedIn(Pops(ks) + [Stored(id, cost)]) == Members(ks)
  {
    UnpoppedConcat(Pops(ks), [Stored(id, cost)]);
    UnpoppedPops(ks);
    PoppedInConcat(Pops(ks), [Stored(id, cost)]);
    PoppedInPops(ks);
    assert PoppedIn([Stored(id, cost)]) == {};
  }

  lemma {:induction false} PutAllTells(cfg: M.Config, st: M.State, ids: seq<Key>, costs: seq<real>) returns (news: seq<Access>)
    requires M.Proper(cfg) && Distinct(ids) && |costs| == |ids| && M.Agree(cfg, st, Members(ids))
    ensures Told(st, M.PutAll(cfg, st, ids, costs), ids, costs, news)
    ensures |st.index.keys| + |ids| <= cfg.maxsize ==>
      PoppedIn(news) == {} && M.PutAll(cfg, st, ids, costs) == st.(index := M.PutAll(cfg, st, ids, costs).index)
    ensures |ids| > 0 ==> ids[|ids| - 1] in M.PutAll(cfg, st, ids, costs).index.keys
    decreases |ids|
  {
    hide M.Agree, M.PutOne, M.Proper, PoppedIn, Unpopped, LiveIds;
    var r := M.PutAll(cfg, st, ids, costs);
    if |ids| == 0 {
      news := [];
      NothingTold(LiveIds(st.tables));
      assert st.index.accesses + [] == st.index.accesses;
    } else {
      M.TailPending(ids);
      var ks := PutOneTells(cfg, st, ids[0], costs[0], Members(ids));
      var u := M.PutOne(cfg, st, ids[0], costs[0], Members(ids));
      var rest := PutAllTells(cfg, u, ids[1..], costs[1..]);
      var first := Pops(ks) + [Stored(ids[0], costs[0])];
      news := first + rest;
      OnePut(ks, ids[0], costs[0]);
      UnpoppedConcat(first, rest);
      PoppedInConcat(first, rest);
      assert Stores(ids, costs) == [Stored(ids[0], costs[0])] + Stores(ids[1..], costs[1..]);
      assert r.index.accesses == st.index.accesses + news;
      if |st.index.keys| + |ids| <= cfg.maxsize {
        assert ks == [];
      }
    }
  }

  lemma NothingTold(live: set<Key>)
    ensures live - PoppedIn([]) == live && PoppedIn([]) == {} && Unpopped([]) == []
  {
  }

  // ---------- an import ----------

  /** What an import that gave `ids` their `costs` leaves in the stores: every row that is still
      live reads as imported, every older one as before, the policy has been told each cost,
      and the rows that are gone are those it popped. */
  ghost predicate Imported(cfg: M.Config, st: M.State, r: M.State, ids: seq<Key>, datas: seq<CacheData>, costs: seq<real>)
    requires |datas| == |ids| == |costs|
  {
    && (forall i :: 0 <= i < |ids| && ids[i] in LiveIds(r.tables) ==>
          ReadsAs(r.tables, ids[i], datas[i].question, datas[i].deps, datas[i].answers,
                  cfg.normalize(datas[i].embedding), datas[i].session))
    && (forall k :: k in LiveIds(r.tables) && k in LiveIds(st.tables) ==> GetData(r.tables, k) == GetData(st.tables, k))
    && (|ids| > 0 ==> ids[|ids| - 1] in LiveIds(r.tables))
    && st.index.accesses <= r.index.accesses
    && var news := r.index.accesses[|st.index.accesses|..];
       && Unpopped(news) == Stores(ids, costs)
       && LiveIds(r.tables) == LiveIds(st.tables) + Members(ids) - PoppedIn(news)
       && (|LiveIds(st.tables)| + |ids| <= cfg.maxsize ==> PoppedIn(news) == {})
  }

  lemma ReadMeans(t: Tables, id: Key, data: CacheData)
    requires GetData(t, id) == M.Read(id, data)
    ensures ReadsAs(t, id, data.question, data.deps, data.answers, data.embedding, data.session)
  {
  }

  lemma ImportLeaves(cfg: M.Config, st: M.State, ids: seq<Key>, datas: seq<CacheData>, costs: seq<real>)
    requires M.Proper(cfg) && M.Agree(cfg, st, {}) && M.Fresh(st.tables, ids) && |datas| == |ids| == |costs|
    ensures Imported(cfg, st, M.Import(cfg, st, ids, datas, costs), ids, datas, costs)
  {
    hide M.Agree, M.Proper, M.Inserted, M.PutAll, M.Fresh, ReadsAs, M.Read, GetData, LiveIds, Unpopped, PoppedIn;
    var ds := M.Normalized(cfg, datas);
    var r := M.Import(cfg, st, ids, datas, costs);
    M.ImportKeeps(cfg, st, ids, datas, costs);
    M.InsertedReady(cfg, st, ids, ds);
    M.InsertedIndex(st, ids, ds);
    M.InsertedReads(cfg, st, ids, ds, {});
    var u := M.Inserted(st, ids, ds);
    var news := PutAllTells(cfg, u, ids, costs);
    assert r.index.accesses[|st.index.accesses|..] == news;
    InsertedLive(cfg, st, u, ids);
    M.AgreeCounts(cfg, st);
    M.AgreeCounts(cfg, r);
    forall i | 0 <= i < |ids| && ids[i] in LiveIds(r.tables)
      ensures ReadsAs(r.tables, ids[i], datas[i].question, datas[i].deps, datas[i].answers,
                      cfg.normalize(datas[i].embedding), datas[i].session)
    {
      ReadMeans(r.tables, ids[i], ds[i]);
    }
  }

  lemma InsertedLive(cfg: M.Config, st: M.State, u: M.State, ids: seq<Key>)
    requires M.Agree(cfg, st, {}) && M.Agree(cfg, u, Members(ids)) && u.index == st.index
    ensures LiveIds(u.tables) == LiveIds(st.tables) + Members(ids)
  {
    hide LiveIds;
    assert st.index.keys + {} == st.index.keys;
  }

  // ---------- start-up ----------

  /** What starting on `tables` and `vectors` leaves: every row that is still live reads as
      before, every live row was put with cost 1, the rows that are gone are those the policy
      popped, and if the live rows fit there are none and nothing has changed. */
  ghost predicate Started(cfg: M.Config, tables: Tables, vectors: map<Key, Vector>, r: M.State) {
    && (forall k :: k in LiveIds(r.tables) ==> k in LiveIds(tables) && GetData(r.tables, k) == GetData(tables, k))
    && LiveIds(r.tables) == LiveIds(tables) - PoppedIn(r.index.accesses) == r.index.keys
    && |Unpopped(r.index.accesses)| == |LiveIds(tables)|
    && (forall k :: k in LiveIds(tables) ==> Stored(k, 1.0) in Unpopped(r.index.accesses))
    && (|LiveIds(tables)| <= cfg.maxsize ==>
          r.tables == tables && r.vectors == vectors && PoppedIn(r.index.accesses) == {})
  }

  lemma StartLeaves(cfg: M.Config, tables: Tables, vectors: map<Key, Vector>, ids: seq<Key>)
    requires M.Proper(cfg) && Owned(tables) && M.VectorsMatch(tables, vectors)
    requires Distinct(ids) && Members(ids) == LiveIds(tables)
    ensures Started(cfg, tables, vectors, M.Start(cfg, tables, vectors, ids))
  {
    hide M.Proper, M.Agree, M.PutAll, GetData, LiveIds, Unpopped, Stores, PoppedIn, M.VectorsMatch, Owned, M.Bounded;
    var st := M.State(tables, vectors, Index({}, []), 0);
    var costs := seq(|ids|, _ => 1.0);
    StartUnfolds(cfg, tables, vectors, ids);
    var r := M.Start(cfg, tables, vectors, ids);
    M.PutAllKeeps(cfg, st, ids, costs);
    M.AgreeCounts(cfg, r);
    var news := PutAllTells(cfg, st, ids, costs);
    assert [] + news == news;
    DistinctSize(ids);
    AllStored(ids, costs);
    ReadableIsLive(tables, r.tables);
  }

  lemma ReadableIsLive(t: Tables, u: Tables)
    ensures forall k :: GetData(u, k) == GetData(t, k) ==> (k in LiveIds(u) <==> k in LiveIds(t))
  {
    forall k | GetData(u, k) == GetData(t, k)
      ensures k in LiveIds(u) <==> k in LiveIds(t)
    {
      assert GetData(u, k).Some? <==> GetData(t, k).Some?;
    }
  }

  lemma StartUnfolds(cfg: M.Config, tables: Tables, vectors: map<Key, Vector>, ids: seq<Key>)
    requires M.Proper(cfg) && Owned(tables) && M.VectorsMatch(tables, vectors)
    requires Distinct(ids) && Members(ids) == LiveIds(tables)
    ensures M.Agree(cfg, M.State(tables, vectors, Index({}, []), 0), Members(ids))
    ensures M.Start(cfg, tables, vectors, ids)
         == M.PutAll(cfg, M.State(tables, vectors, Index({}, []), 0), ids, seq(|ids|, _ => 1.0))
  {
    hide LiveIds, Owned, M.VectorsMatch, M.PutAll;
    assert {} + Members(ids) == Members(ids);
  }

  lemma AllStored(ids: seq<Key>, costs: seq<real>)
    requires costs == seq(|ids|, _ => 1.0)
    ensures forall k :: k in Members(ids) ==> Stored(k, 1.0) in Stores(ids, costs)
    ensures |Stores(ids, costs)| == |ids|
  {
    forall k | k in Members(ids)
      ensures Stored(k, 1.0) in Stores(ids, costs)
    {
      var i :| 0 <= i < |ids| && ids[i] == k;
      assert Stores(ids, costs)[i] == Stored(k, 1.0);
    }
  }

  lemma {:induction false} DistinctSize(ids: seq<Key>)
    requires Distinct(ids)
    ensures |Members(ids)| == |ids|
    decreases |ids|
  {
    if |ids| == 0 {
      assert Members(ids) == {};
    } else {
      var front, last := ids[..|ids| - 1], ids[|ids| - 1];
      DistinctSize(front);
      assert Members(ids) == Members(front) + {last};
      assert last !in front;
    }
  }

  // ---------- the callback ----------

  /** The callback marks the keys, and sweeps if and only if more than 5000 rows, or more than a
      tenth of them, are then marked; the index is not touched. */
  lemma ClearSweepsIff(st: M.State, ks: seq<Key>)
    requires st.tables.questions != map[] && M.VectorsMatch(st.tables, st.vectors)
    ensures var r := M.Clear(st, ks);
      var marked := DeadIds(st.tables) + Members(ks) * st.tables.questions.Keys;
      if |marked| <= 5000 && 10 * |marked| <= |st.tables.questions| then
        && r.tables.questions.Keys == st.tables.questions.Keys && DeadIds(r.tables) == marked
        && r.vectors == st.vectors && r.deleteCount == st.deleteCount
      else
        && r.tables.questions.Keys == st.tables.questions.Keys - marked && DeadIds(r.tables) == {}
        && r.vectors.Keys == st.tables.questions.Keys - marked
        && r.deleteCount == if st.deleteCount >= 4 then 0 else st.deleteCount + 1
  {
    var t := MarkDeleted(st.tables, Members(ks));
    MarkHides(st.tables, Members(ks));
    M.MarkedNonEmpty(st.tables, Members(ks));
    M.NoSweepMeansBounded(t);
    SameCount(t, st.tables);
    hide MarkDeleted, ClearDeleted, M.MustSweep, GetData, M.Rebuild;
    if M.MustSweep(t) {
      var st' := st.(tables := t);
      M.MarkedVectors(st.tables, st.vectors, Members(ks));
      SweepEffect(st');
      LiveAreRest(t);
    }
  }

  lemma SameCount(t: Tables, u: Tables)
    ensures t.questions.Keys == u.questions.Keys ==> |t.questions| == |u.questions|
  {
    assert |t.questions.Keys| == |t.questions| && |u.questions.Keys| == |u.questions|;
  }

  lemma LiveAreRest(t: Tables)
    ensures LiveIds(t) == t.questions.Keys - DeadIds(t)
  {
  }

  lemma SweepEffect(st: M.State)
    requires M.VectorsMatch(st.tables, st.vectors)
    ensures var r := M.Sweep(st);
      && r.tables.questions.Keys == LiveIds(st.tables) && DeadIds(r.tables) == {}
      && r.vectors.Keys == LiveIds(st.tables)
      && r.deleteCount == if st.deleteCount >= 4 then 0 else st.deleteCount + 1
  {
    hide ClearDeleted, LiveIds, DeadIds, M.VectorsMatch, M.Without, M.Only, M.Rebuild;
    var t, vs := ClearDeleted(st.tables), M.Without(st.vectors, DeadIds(st.tables));
    SweepRemovesTheDead(st.tables);
    M.SweptVectors(st.tables, st.vectors);
    M.ClearTwice(st.tables);
    var swept := st.(tables := t, vectors := vs, deleteCount := st.deleteCount + 1);
    M.RebuildAddsNothing(swept);
  }
}
