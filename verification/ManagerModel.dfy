/** The three stores of SSDataManager (SQL tables, vector index, eviction index) as one
    state, and its steps.  The eviction callback runs in the middle of an import, so the
    agreement between the stores is stated with the ids still waiting to be put. */
module ManagerModel {
  import opened Basics
  import opened SqlStorage
  import opened PolicyIndex

  const MAX_MARK_COUNT := 5000
  const MAX_MARK_RATE := 0.1
  const REBUILD_CONDITION := 5

  datatype Config = Config(maxsize: nat, cleanSize: nat, policy: Policy, normalize: Vector -> Vector)

  datatype State = State(tables: Tables, vectors: map<Key, Vector>, index: Index, deleteCount: nat)

  ghost predicate Proper(cfg: Config) {
    1 <= cfg.cleanSize <= cfg.maxsize && Sound(cfg.policy)
  }

  // ---------- agreement ----------

  /** The vector store holds one vector per row, soft-deleted rows included, and it is the
      row's own embedding. */
  predicate VectorsMatch(t: Tables, vectors: map<Key, Vector>) {
    vectors.Keys == t.questions.Keys && forall k :: k in vectors ==> vectors[k] == t.questions[k].embedding
  }

  /** Live rows are the eviction index plus the ids not yet put. */
  ghost predicate Agree(cfg: Config, st: State, pending: set<Key>) {
    && LiveIds(st.tables) == st.index.keys + pending
    && st.index.keys !! pending
    && VectorsMatch(st.tables, st.vectors)
    && Owned(st.tables)
    && |st.index.keys| <= cfg.maxsize
  }

  // ---------- eviction_manager.py ----------

  /** `check_evict`; the rate divides by the number of rows. */
  predicate MustSweep(t: Tables)
    requires t.questions != map[]
  {
    || |DeadIds(t)| > MAX_MARK_COUNT
    || |DeadIds(t)| as real / |t.questions| as real > MAX_MARK_RATE
  }

  function Without(vectors: map<Key, Vector>, ids: set<Key>): map<Key, Vector> {
    vectors - ids
  }

  function Only(vectors: map<Key, Vector>, ids: set<Key>): map<Key, Vector> {
    map k | k in vectors && k in ids :: vectors[k]
  }

  function Rebuild(st: State): State {
    var t := ClearDeleted(st.tables);
    st.(tables := t, vectors := Only(st.vectors, LiveIds(t)), deleteCount := 0)
  }

  /** `delete` */
  function Sweep(st: State): State {
    var swept := st.(tables := ClearDeleted(st.tables),
                     vectors := Without(st.vectors, DeadIds(st.tables)),
                     deleteCount := st.deleteCount + 1);
    if swept.deleteCount >= REBUILD_CONDITION then Rebuild(swept) else swept
  }

  /** `SSDataManager._clear`, the `on_evict` callback. */
  function Clear(st: State, ks: seq<Key>): State
    requires st.tables.questions != map[]
  {
    var marked := st.(tables := MarkDeleted(st.tables, Members(ks)));
    if MarkedNonEmpty(st.tables, Members(ks)); MustSweep(marked.tables) then Sweep(marked) else marked
  }

  lemma MarkedNonEmpty(t: Tables, ks: set<Key>)
    ensures t.questions != map[] ==> MarkDeleted(t, ks).questions != map[]
    ensures MarkDeleted(t, ks).questions.Keys == t.questions.Keys
  {
    if t.questions != map[] {
      var k :| k in t.questions;
      assert k in MarkDeleted(t, ks).questions;
    }
  }

  // ---------- the storage bound ----------

  /** What `check_evict` leaves behind when it does not call for a sweep. */
  predicate Bounded(t: Tables) {
    |DeadIds(t)| <= 5000 && 10 * |DeadIds(t)| <= |t.questions|
  }

  lemma NoSweepMeansBounded(t: Tables)
    requires t.questions != map[]
    ensures !MustSweep(t) <==> Bounded(t)
  {
    var d, n := |DeadIds(t)|, |t.questions|;
    assert n > 0;
    RateCheck(d, n);
  }

  lemma RateCheck(d: nat, n: nat)
    requires n > 0
    ensures d as real / n as real > 0.1 <==> 10 * d > n
  {
    QuotientAbove(d as real, n as real, 0.1);
  }

  lemma QuotientAbove(x: real, y: real, c: real)
    requires y > 0.0
    ensures x / y > c <==> x > c * y
  {
    var q := x / y;
    assert q * y == x;
    if q > c {
      assert (q - c) * y > 0.0;
    } else {
      assert (q - c) * y <= 0.0;
    }
  }

  lemma SplitRows(t: Tables)
    ensures LiveIds(t) !! DeadIds(t) && LiveIds(t) + DeadIds(t) == t.questions.Keys
    ensures |LiveIds(t)| + |DeadIds(t)| == |t.questions|
  {
    assert LiveIds(t) + DeadIds(t) == t.questions.Keys;
  }

  /** Soft-deleted rows never cost more than a ninth on top of the live ones. */
  lemma RowsWithinANinth(t: Tables, maxsize: nat)
    requires Bounded(t) && |LiveIds(t)| <= maxsize
    ensures |t.questions| <= maxsize + maxsize / 9
  {
    SplitRows(t);
  }

  // ---------- what each step keeps ----------

  lemma SweepAgrees(cfg: Config, st: State, pending: set<Key>)
    requires Agree(cfg, st, pending)
    ensures var r := Sweep(st);
      && Agree(cfg, r, pending) && r.index == st.index && DeadIds(r.tables) == {}
      && r.tables == ClearDeleted(st.tables) && r.vectors.Keys == LiveIds(st.tables)
  {
    hide ClearDeleted, Owned, LiveIds, DeadIds, VectorsMatch, Without, Only, Rebuild;
    var t, vs := ClearDeleted(st.tables), Without(st.vectors, DeadIds(st.tables));
    SweepRemovesTheDead(st.tables);
    SweptVectors(st.tables, st.vectors);
    ClearTwice(st.tables);
    RebuildAddsNothing(st.(tables := t, vectors := vs, deleteCount := st.deleteCount + 1));
  }

  lemma SweptVectors(t: Tables, vectors: map<Key, Vector>)
    requires VectorsMatch(t, vectors)
    ensures VectorsMatch(ClearDeleted(t), Without(vectors, DeadIds(t)))
    ensures Without(vectors, DeadIds(t)).Keys == LiveIds(t)
  {
    assert vectors.Keys - DeadIds(t) == LiveIds(t);
  }

  lemma ClearTwice(t: Tables)
    ensures ClearDeleted(ClearDeleted(t)) == ClearDeleted(t)
  {
    var u := ClearDeleted(t);
    SweepRemovesTheDead(t);
    SelectAll(u.answers, OwnerOfAnswer(), Outside(DeadIds(u)));
    SelectAll(u.deps, OwnerOfDep(), Outside(DeadIds(u)));
    assert ClearDeleted(u).questions == u.questions && ClearDeleted(u).sessions == u.sessions;
  }

  /** After a sweep the periodic rebuild of the vector index changes nothing but the
      counter, so a back end whose `rebuild` does nothing is equally correct. */
  lemma RebuildAddsNothing(st: State)
    requires VectorsMatch(st.tables, st.vectors) && DeadIds(st.tables) == {}
    requires ClearDeleted(st.tables) == st.tables
    ensures Rebuild(st) == st.(deleteCount := 0)
  {
    SplitRows(st.tables);
    assert Only(st.vectors, LiveIds(st.tables)) == st.vectors;
  }

  /** The callback hides exactly the reported keys, keeps the other stores in step, leaves
      the soft-deleted rows within bounds and changes no surviving entry. */
  lemma ClearAgrees(cfg: Config, st: State, ks: seq<Key>, pending: set<Key>)
    requires st.index.keys !! Members(ks) && st.index.keys !! pending && Members(ks) !! pending
    requires LiveIds(st.tables) == st.index.keys + Members(ks) + pending
    requires VectorsMatch(st.tables, st.vectors) && Owned(st.tables) && |st.index.keys| <= cfg.maxsize
    requires st.tables.questions != map[]
    ensures var r := Clear(st, ks);
      && Agree(cfg, r, pending) && Bounded(r.tables) && r.index == st.index
      && (forall id :: id in LiveIds(r.tables) ==> GetData(r.tables, id) == GetData(st.tables, id))
  {
    var marked := st.(tables := MarkDeleted(st.tables, Members(ks)));
    MarkHides(st.tables, Members(ks));
    MarkedNonEmpty(st.tables, Members(ks));
    MarkedVectors(st.tables, st.vectors, Members(ks));
    assert LiveIds(marked.tables) == st.index.keys + pending;
    hide MarkDeleted, ClearDeleted, Owned, LiveIds, DeadIds, GetData, VectorsMatch, Sweep, MustSweep;
    if MustSweep(marked.tables) {
      SweepAgrees(cfg, marked, pending);
      EmptyBounded(Clear(st, ks).tables);
      forall id | id in LiveIds(Clear(st, ks).tables)
        ensures GetData(Clear(st, ks).tables, id) == GetData(st.tables, id)
      {
        SweptLive(marked.tables);
        SweepKeepsLiveEntries(marked.tables, id);
      }
    } else {
      NoSweepMeansBounded(marked.tables);
    }
  }

  lemma SweptLive(t: Tables)
    ensures LiveIds(ClearDeleted(t)) == LiveIds(t)
  {
    SweepRemovesTheDead(t);
  }

  lemma EmptyBounded(t: Tables)
    requires DeadIds(t) == {}
    ensures Bounded(t)
  {
  }

  lemma MarkedVectors(t: Tables, vectors: map<Key, Vector>, ks: set<Key>)
    requires VectorsMatch(t, vectors)
    ensures VectorsMatch(MarkDeleted(t, ks), vectors)
  {
  }

  // ---------- put ----------

  /** One batch: the victims leave the index, then the callback runs. */
  function Overflow(cfg: Config, st: State): State
    requires st.tables.questions != map[]
  {
    Clear(st.(index := PopMany(cfg.policy, st.index, cfg.cleanSize)), Reported(cfg.policy, st.index, cfg.cleanSize))
  }

  predicate Overflows(cfg: Config, st: State, id: Key) {
    id !in st.index.keys && |st.index.keys| + 1 > cfg.maxsize
  }

  ghost function PutOne(cfg: Config, st: State, id: Key, cost: real, pending: set<Key>): (r: State)
    requires Proper(cfg) && Agree(cfg, st, pending) && id in pending
    ensures Agree(cfg, r, pending - {id})
  {
    RowsExist(cfg, st, pending, id);
    var room := if Overflows(cfg, st, id) then OverflowAgrees(cfg, st, pending); Overflow(cfg, st) else st;
    StoreAgrees(cfg, room, id, cost, pending);
    room.(index := Store(room.index, id, cost))
  }

  lemma RowsExist(cfg: Config, st: State, pending: set<Key>, id: Key)
    requires Agree(cfg, st, pending) && id in pending
    ensures st.tables.questions != map[] && id !in st.index.keys
  {
    assert id in LiveIds(st.tables);
  }

  lemma StoreAgrees(cfg: Config, st: State, id: Key, cost: real, pending: set<Key>)
    requires Agree(cfg, st, pending) && id in pending && |st.index.keys| + 1 <= cfg.maxsize
    ensures Agree(cfg, st.(index := Store(st.index, id, cost)), pending - {id})
  {
    hide LiveIds, VectorsMatch, Owned;
    assert st.index.keys + pending == (st.index.keys + {id}) + (pending - {id});
  }

  lemma OverflowAgrees(cfg: Config, st: State, pending: set<Key>)
    requires Proper(cfg) && Agree(cfg, st, pending) && st.tables.questions != map[]
    requires |st.index.keys| == cfg.maxsize
    ensures var r := Overflow(cfg, st);
      && Agree(cfg, r, pending) && Bounded(r.tables)
      && |r.index.keys| == cfg.maxsize - cfg.cleanSize
      && (forall id :: id in LiveIds(r.tables) ==> GetData(r.tables, id) == GetData(st.tables, id))
  {
    hide LiveIds, VectorsMatch, Owned, GetData, Bounded, Sound, Clear;
    var ks := Victims(cfg.policy, st.index, cfg.cleanSize);
    VictimsLeave(cfg.policy, st.index, cfg.cleanSize);
    var popped := st.(index := PopMany(cfg.policy, st.index, cfg.cleanSize));
    assert st.index.keys == popped.index.keys + Members(ks);
    ClearAgrees(cfg, popped, ks, pending);
  }

  /** The stores stay in step through a full index's overflow exactly when the clean size
      does not exceed the maximum; beyond it the callback hears nothing and the evicted
      rows stay live. */
  lemma OverflowAgreesIff(cfg: Config, st: State, pending: set<Key>)
    requires Sound(cfg.policy) && cfg.cleanSize >= 1 && cfg.maxsize >= 1
    requires Agree(cfg, st, pending) && st.tables.questions != map[] && |st.index.keys| == cfg.maxsize
    ensures Agree(cfg, Overflow(cfg, st), pending) <==> cfg.cleanSize <= cfg.maxsize
  {
    if cfg.cleanSize <= cfg.maxsize {
      OverflowAgrees(cfg, st, pending);
    } else {
      VictimsLeave(cfg.policy, st.index, cfg.cleanSize);
      var ks := Victims(cfg.policy, st.index, cfg.cleanSize);
      AllOfThem(Members(ks), st.index.keys);
      var popped := st.(index := PopMany(cfg.policy, st.index, cfg.cleanSize));
      assert popped.index.keys == {};
      ClearNothing(popped);
      assert LiveIds(Overflow(cfg, st).tables) == st.index.keys + pending;
      var k :| k in st.index.keys;
      assert k !in pending;
    }
  }

  lemma AllOfThem(a: set<Key>, b: set<Key>)
    requires a <= b && |a| == |b|
    ensures a == b
  {
    assert b == a + (b - a);
    assert |b - a| == 0;
  }

  lemma ClearNothing(st: State)
    requires st.tables.questions != map[]
    ensures LiveIds(Clear(st, []).tables) == LiveIds(st.tables) && Clear(st, []).index == st.index
  {
    MarkHides(st.tables, Members([]));
    SweepLive(st.(tables := MarkDeleted(st.tables, Members([]))));
    hide LiveIds, MarkDeleted, ClearDeleted, Sweep, MustSweep;
    assert LiveIds(st.tables) - Members([]) == LiveIds(st.tables);
  }

  lemma SweepLive(st: State)
    ensures LiveIds(Sweep(st).tables) == LiveIds(st.tables) && Sweep(st).index == st.index
  {
    hide ClearDeleted, LiveIds, DeadIds;
    SweptLive(st.tables);
    SweptLive(ClearDeleted(st.tables));
  }

  lemma TailPending(ids: seq<Key>)
    requires Distinct(ids) && |ids| > 0
    ensures Members(ids[1..]) == Members(ids) - {ids[0]} && Distinct(ids[1..]) && ids[0] in Members(ids)
  {
    assert ids == [ids[0]] + ids[1..];
  }

  /** `put`, id by id. */
  ghost function PutAll(cfg: Config, st: State, ids: seq<Key>, costs: seq<real>): (r: State)
    requires Proper(cfg) && Distinct(ids) && |costs| == |ids| && Agree(cfg, st, Members(ids))
    ensures Agree(cfg, r, {})
    decreases |ids|
  {
    if |ids| == 0 then st
    else
      TailPending(ids);
      PutAll(cfg, PutOne(cfg, st, ids[0], costs[0], Members(ids)), ids[1..], costs[1..])
  }

  lemma PutOneKeeps(cfg: Config, st: State, id: Key, cost: real, pending: set<Key>)
    requires Proper(cfg) && Agree(cfg, st, pending) && id in pending
    ensures var r := PutOne(cfg, st, id, cost, pending);
      && (Bounded(st.tables) ==> Bounded(r.tables))
      && (forall k :: k in LiveIds(r.tables) ==> GetData(r.tables, k) == GetData(st.tables, k))
  {
    RowsExist(cfg, st, pending, id);
    hide LiveIds, VectorsMatch, Owned, GetData, Bounded, Sound, Clear, Overflow;
    if Overflows(cfg, st, id) {
      OverflowAgrees(cfg, st, pending);
    }
  }

  lemma LiveReadable(t: Tables, k: Key)
    requires GetData(t, k).Some?
    ensures k in LiveIds(t)
  {
  }

  lemma {:induction false} PutAllKeeps(cfg: Config, st: State, ids: seq<Key>, costs: seq<real>)
    requires Proper(cfg) && Distinct(ids) && |costs| == |ids| && Agree(cfg, st, Members(ids))
    ensures var r := PutAll(cfg, st, ids, costs);
      && (Bounded(st.tables) ==> Bounded(r.tables))
      && (forall k :: k in LiveIds(r.tables) ==> GetData(r.tables, k) == GetData(st.tables, k))
    decreases |ids|
  {
    hide LiveIds, Agree, GetData, Bounded, PutOne;
    if |ids| != 0 {
      TailPending(ids);
      PutOneKeeps(cfg, st, ids[0], costs[0], Members(ids));
      var u := PutOne(cfg, st, ids[0], costs[0], Members(ids));
      PutAllKeeps(cfg, u, ids[1..], costs[1..]);
      var r := PutAll(cfg, st, ids, costs);
      forall k | k in LiveIds(r.tables)
        ensures GetData(r.tables, k) == GetData(st.tables, k)
      {
        assert GetData(r.tables, k).Some?;
        LiveReadable(u.tables, k);
      }
    }
  }

  // ---------- import ----------

  function AddVectors(vectors: map<Key, Vector>, ids: seq<Key>, datas: seq<CacheData>): (r: map<Key, Vector>)
    requires |ids| == |datas|
    decreases |ids|
  {
    if |ids| == 0 then vectors else AddVectors(vectors[ids[0] := datas[0].embedding], ids[1..], datas[1..])
  }

  function Normalized(cfg: Config, datas: seq<CacheData>): (r: seq<CacheData>)
    ensures |r| == |datas|
  {
    seq(|datas|, i requires 0 <= i < |datas| => datas[i].(embedding := cfg.normalize(datas[i].embedding)))
  }

  /** Ids the database may hand out: fresh against the rows it holds now.  An id swept
      earlier may come back. */
  predicate Fresh(t: Tables, ids: seq<Key>) {
    Distinct(ids) && forall id :: id in ids ==> id !in t.questions
  }

  /** Rows and vectors are in, nothing is in the eviction index yet. */
  ghost function Inserted(st: State, ids: seq<Key>, datas: seq<CacheData>): State
    requires |ids| == |datas|
  {
    st.(tables := BatchInsert(st.tables, ids, datas), vectors := AddVectors(st.vectors, ids, datas))
  }

  ghost function Import(cfg: Config, st: State, ids: seq<Key>, datas: seq<CacheData>, costs: seq<real>): (r: State)
    requires Proper(cfg) && Agree(cfg, st, {}) && Fresh(st.tables, ids) && |datas| == |ids| == |costs|
    ensures Agree(cfg, r, {})
  {
    InsertedReady(cfg, st, ids, Normalized(cfg, datas));
    PutAll(cfg, Inserted(st, ids, Normalized(cfg, datas)), ids, costs)
  }

  lemma {:induction false} InsertedAgrees(cfg: Config, st: State, ids: seq<Key>, datas: seq<CacheData>, before: set<Key>)
    requires Agree(cfg, st, before) && Fresh(st.tables, ids) && |datas| == |ids|
    ensures var r := Inserted(st, ids, datas);
      && Agree(cfg, r, before + Members(ids)) && r.index == st.index
      && DeadIds(r.tables) == DeadIds(st.tables) && |r.tables.questions| == |st.tables.questions| + |ids|
    decreases |ids|
  {
    hide GetData, LiveIds, DeadIds, Owned, Insert, VectorsMatch, DepRows, AnswerRows, Fresh, Agree;
    if |ids| == 0 {
      AgreeMore(cfg, st, before);
      assert before + Members(ids) == before;
    } else {
      FreshFirst(cfg, st, before, ids);
      var u := InsertOne(cfg, st, ids, datas, before);
      TailPending(ids);
      InsertedAgrees(cfg, u, ids[1..], datas[1..], before + {ids[0]});
      assert before + Members(ids) == before + {ids[0]} + Members(ids[1..]);
    }
  }

  lemma InsertOne(cfg: Config, st: State, ids: seq<Key>, datas: seq<CacheData>, before: set<Key>) returns (u: State)
    requires Agree(cfg, st, before) && Fresh(st.tables, ids) && |datas| == |ids| > 0
    ensures u == st.(tables := Insert(st.tables, ids[0], datas[0]), vectors := st.vectors[ids[0] := datas[0].embedding])
    ensures Inserted(st, ids, datas) == Inserted(u, ids[1..], datas[1..])
    ensures Agree(cfg, u, before + {ids[0]}) && Fresh(u.tables, ids[1..])
    ensures DeadIds(u.tables) == DeadIds(st.tables) && |u.tables.questions| == |st.tables.questions| + 1
    ensures LiveIds(u.tables) == LiveIds(st.tables) + {ids[0]}
    ensures GetData(u.tables, ids[0]) == Read(ids[0], datas[0])
    ensures forall k :: k in LiveIds(st.tables) ==> GetData(u.tables, k) == GetData(st.tables, k)
  {
    hide GetData, LiveIds, DeadIds, Owned, Insert, VectorsMatch, DepRows, AnswerRows, Fresh, Agree;
    FreshFirst(cfg, st, before, ids);
    var t := Insert(st.tables, ids[0], datas[0]);
    InsertReadsBack(st.tables, ids[0], datas[0]);
    u := st.(tables := t, vectors := st.vectors[ids[0] := datas[0].embedding]);
    OneMoreAgrees(cfg, st, u, ids[0], datas[0], before);
    FreshTail(st.tables, t, ids);
  }

  lemma {:induction false} InsertedReads(cfg: Config, st: State, ids: seq<Key>, datas: seq<CacheData>, before: set<Key>)
    requires Agree(cfg, st, before) && Fresh(st.tables, ids) && |datas| == |ids|
    ensures var r := Inserted(st, ids, datas);
      && (forall k :: k in LiveIds(st.tables) ==> k in LiveIds(r.tables) && GetData(r.tables, k) == GetData(st.tables, k))
      && (forall i :: 0 <= i < |ids| ==> ids[i] in LiveIds(r.tables) && GetData(r.tables, ids[i]) == Read(ids[i], datas[i]))
    decreases |ids|
  {
    hide GetData, LiveIds, DeadIds, Insert, Fresh, Agree, Read;
    if |ids| != 0 {
      var u := InsertOne(cfg, st, ids, datas, before);
      InsertedReads(cfg, u, ids[1..], datas[1..], before + {ids[0]});
      var r := Inserted(st, ids, datas);
      forall i | 0 <= i < |ids|
        ensures ids[i] in LiveIds(r.tables) && GetData(r.tables, ids[i]) == Read(ids[i], datas[i])
      {
        if i > 0 {
          assert ids[i] == ids[1..][i - 1] && datas[i] == datas[1..][i - 1];
        }
      }
    }
  }

  lemma InsertedReady(cfg: Config, st: State, ids: seq<Key>, datas: seq<CacheData>)
    requires Agree(cfg, st, {}) && Fresh(st.tables, ids) && |datas| == |ids|
    ensures Agree(cfg, Inserted(st, ids, datas), Members(ids)) && Distinct(ids)
  {
    hide Agree, Inserted;
    InsertedAgrees(cfg, st, ids, datas, {});
    assert {} + Members(ids) == Members(ids);
  }

  lemma AgreeMore(cfg: Config, st: State, before: set<Key>)
    requires Agree(cfg, st, before)
    ensures Agree(cfg, st, before + {})
  {
    assert before + {} == before;
  }

  lemma FreshFirst(cfg: Config, st: State, before: set<Key>, ids: seq<Key>)
    requires Agree(cfg, st, before) && Fresh(st.tables, ids) && |ids| > 0
    ensures Owned(st.tables) && ids[0] !in st.tables.questions && Distinct(ids)
  {
  }

  lemma InsertedIndex(st: State, ids: seq<Key>, datas: seq<CacheData>)
    requires |ids| == |datas|
    ensures Inserted(st, ids, datas).index == st.index
  {
  }

  /** How an inserted entry reads. */
  function Read(id: Key, data: CacheData): Option<Record> {
    Some(Record(data.question, DepRows(id, data.deps), AnswerRows(id, data.answers), data.embedding,
                if data.session.Some? then {data.session.value} else {}))
  }

  lemma FreshTail(t: Tables, u: Tables, ids: seq<Key>)
    requires Fresh(t, ids) && |ids| > 0 && u.questions.Keys == t.questions.Keys + {ids[0]}
    ensures Fresh(u, ids[1..]) && |u.questions| == |t.questions| + 1
  {
    assert ids == [ids[0]] + ids[1..];
    assert |u.questions.Keys| == |t.questions.Keys| + 1;
  }

  lemma OneMoreAgrees(cfg: Config, st: State, u: State, id: Key, data: CacheData, before: set<Key>)
    requires Agree(cfg, st, before) && id !in st.tables.questions
    requires u == st.(tables := Insert(st.tables, id, data), vectors := st.vectors[id := data.embedding])
    ensures Agree(cfg, u, before + {id})
  {
    hide GetData, Insert, Owned, VectorsMatch, DeadIds, LiveIds, DepRows, AnswerRows;
    InsertReadsBack(st.tables, id, data);
    InsertVectors(st.tables, st.vectors, id, data);
    MissingNotLive(st.tables, id);
    assert LiveIds(u.tables) == st.index.keys + (before + {id});
  }

  lemma MissingNotLive(t: Tables, id: Key)
    requires id !in t.questions
    ensures id !in LiveIds(t)
  {
  }

  lemma InsertVectors(t: Tables, vectors: map<Key, Vector>, id: Key, data: CacheData)
    requires VectorsMatch(t, vectors)
    ensures VectorsMatch(Insert(t, id, data), vectors[id := data.embedding])
  {
    hide NextRow;
  }

  /** After any completed import the stores agree, the rows are bounded, and every entry
      that is still live reads as it did before, or as it was imported. */
  lemma ImportKeeps(cfg: Config, st: State, ids: seq<Key>, datas: seq<CacheData>, costs: seq<real>)
    requires Proper(cfg) && Agree(cfg, st, {}) && Fresh(st.tables, ids) && |datas| == |ids| == |costs|
    ensures var r := Import(cfg, st, ids, datas, costs);
      && Agree(cfg, r, {})
      && (Bounded(st.tables) ==> Bounded(r.tables) && |r.tables.questions| <= cfg.maxsize + cfg.maxsize / 9)
      && (forall k :: k in LiveIds(r.tables) && k in LiveIds(st.tables) ==> GetData(r.tables, k) == GetData(st.tables, k))
      && (forall i :: 0 <= i < |ids| && ids[i] in LiveIds(r.tables) ==>
            GetData(r.tables, ids[i]) == Read(ids[i], Normalized(cfg, datas)[i]))
  {
    hide GetData, LiveIds, DeadIds, Agree, Inserted, PutAll, Read, Normalized, Fresh;
    var ds := Normalized(cfg, datas);
    InsertedAgrees(cfg, st, ids, ds, {});
    InsertedReads(cfg, st, ids, ds, {});
    var u := Inserted(st, ids, ds);
    assert {} + Members(ids) == Members(ids);
    FreshDistinct(st.tables, ids);
    PutAllKeeps(cfg, u, ids, costs);
    var r := Import(cfg, st, ids, datas, costs);
    AgreeCounts(cfg, r);
    if Bounded(st.tables) {
      RowsWithinANinth(r.tables, cfg.maxsize);
    }
  }

  lemma FreshDistinct(t: Tables, ids: seq<Key>)
    requires Fresh(t, ids)
    ensures Distinct(ids)
  {
  }

  lemma AgreeCounts(cfg: Config, st: State)
    requires Agree(cfg, st, {})
    ensures LiveIds(st.tables) == st.index.keys && |LiveIds(st.tables)| <= cfg.maxsize
  {
    assert st.index.keys + {} == st.index.keys;
  }

  // ---------- start-up ----------

  /** `__init__` on existing stores: the live ids are put with cost 1 (`True`). */
  ghost function Start(cfg: Config, tables: Tables, vectors: map<Key, Vector>, ids: seq<Key>): (r: State)
    requires Proper(cfg) && Owned(tables) && VectorsMatch(tables, vectors)
    requires Distinct(ids) && Members(ids) == LiveIds(tables)
    ensures Agree(cfg, r, {})
  {
    PutAll(cfg, State(tables, vectors, Index({}, []), 0), ids, seq(|ids|, _ => 1.0))
  }

  // ---------- runs ----------

  datatype Request =
    | Save(ids: seq<Key>, datas: seq<CacheData>, costs: seq<real>)
    | Hit(id: Key)
    | Join(id: Key, session: Name, question: string)
    | Leave(session: Name)

  predicate Admissible(st: State, q: Request) {
    match q
    case Save(ids, datas, costs) => Fresh(st.tables, ids) && |ids| == |datas| == |costs|
    case Join(id, _, _) => id in LiveIds(st.tables)
    case _ => true
  }

  ghost function Serve(cfg: Config, st: State, q: Request): (r: State)
    requires Proper(cfg) && Agree(cfg, st, {}) && Admissible(st, q)
    ensures Agree(cfg, r, {})
  {
    match q
    case Save(ids, datas, costs) => Import(cfg, st, ids, datas, costs)
    case Hit(id) => st.(index := Touch(st.index, id))
    case Join(id, session, question) =>
      JoinAgrees(st.tables, id, session, question);
      st.(tables := AddSession(st.tables, id, session, question))
    case Leave(session) => st.(tables := DropSession(st.tables, session))
  }

  lemma JoinAgrees(t: Tables, id: Key, session: Name, question: string)
    requires id in LiveIds(t)
    ensures Owned(t) ==> Owned(AddSession(t, id, session, question))
  {
  }

  ghost predicate AllAdmissible(cfg: Config, st: State, qs: seq<Request>)
    requires Proper(cfg) && Agree(cfg, st, {})
    decreases |qs|
  {
    |qs| > 0 ==> Admissible(st, qs[0]) && AllAdmissible(cfg, Serve(cfg, st, qs[0]), qs[1..])
  }

  ghost function Run(cfg: Config, st: State, qs: seq<Request>): (r: State)
    requires Proper(cfg) && Agree(cfg, st, {}) && AllAdmissible(cfg, st, qs)
    ensures Agree(cfg, r, {})
    decreases |qs|
  {
    if |qs| == 0 then st else Run(cfg, Serve(cfg, st, qs[0]), qs[1..])
  }

  lemma ServeBounded(cfg: Config, st: State, q: Request)
    requires Proper(cfg) && Agree(cfg, st, {}) && Admissible(st, q) && Bounded(st.tables)
    ensures Bounded(Serve(cfg, st, q).tables)
  {
    if q.Save? {
      ImportKeeps(cfg, st, q.ids, q.datas, q.costs);
    } else {
      assert Serve(cfg, st, q).tables.questions == st.tables.questions;
    }
  }

  /** Over every run from a store within bounds: three stores in step, no dangling row,
      at most a ninth of the maximum in soft-deleted rows. */
  lemma {:induction false} RunKeeps(cfg: Config, st: State, qs: seq<Request>)
    requires Proper(cfg) && Agree(cfg, st, {}) && AllAdmissible(cfg, st, qs) && Bounded(st.tables)
    ensures var r := Run(cfg, st, qs);
      && LiveIds(r.tables) == r.index.keys && VectorsMatch(r.tables, r.vectors) && Owned(r.tables)
      && Bounded(r.tables) && |r.index.keys| <= cfg.maxsize
      && |r.tables.questions| <= cfg.maxsize + cfg.maxsize / 9
    decreases |qs|
  {
    AgreeCounts(cfg, Run(cfg, st, qs));
    if |qs| == 0 {
      RowsWithinANinth(st.tables, cfg.maxsize);
    } else {
      hide LiveIds, Agree, Bounded, Serve, Admissible;
      ServeBounded(cfg, st, qs[0]);
      RunKeeps(cfg, Serve(cfg, st, qs[0]), qs[1..]);
    }
  }
}
