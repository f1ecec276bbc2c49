/** The mutable objects behind SSDataManager, proved equal to the steps of ManagerModel.
    Answers are text (no object store), and any in-memory policy may be plugged in. */
module DataManager {
  import opened Basics
  import opened SqlStorage
  import opened PolicyIndex
  import M = ManagerModel
  import Puts = ManagerPuts

  // ---------- _answer_cost ----------

  function TotalLength(answers: seq<Answer>): nat {
    if |answers| == 0 then 0 else TotalLength(answers[..|answers| - 1]) + |answers[|answers| - 1].content|
  }

  /** The text length adds up over the answers. */
  lemma {:induction false} LengthAdds(a: seq<Answer>, b: seq<Answer>)
    ensures TotalLength(a + b) == TotalLength(a) + TotalLength(b)
    ensures |b| == 1 ==> TotalLength(b) == |b[0].content|
    decreases |b|
  {
    if |b| == 0 {
      assert a + b == a;
    } else {
      assert (a + b)[..|a + b| - 1] == a + b[..|b| - 1];
      LengthAdds(a, b[..|b| - 1]);
    }
  }

  /** The cost of an answer list: its text length, and never less than 1, which is what
      makes the aging bound apply with c = 1. */
  method AnswerCost(answers: seq<Answer>) returns (cost: real)
    ensures cost >= 1.0
    ensures cost == if TotalLength(answers) == 0 then 1.0 else TotalLength(answers) as real
  {
    var total := 0;
    for i := 0 to |answers|
      invariant total == TotalLength(answers[..i])
    {
      assert answers[..i + 1][..i] == answers[..i];
      total := total + |answers[i].content|;
    }
    assert answers[..|answers|] == answers;
    cost := (if total > 1 then total else 1) as real;
  }

  /** The parallel lists of an import, row by row. */
  function Rows(questions: seq<string>, deps: seq<seq<Dep>>, answers: seq<seq<Answer>>, embeddings: seq<Vector>,
                sessionIds: seq<Option<Name>>): (r: seq<CacheData>)
    requires |questions| == |deps| == |answers| == |embeddings| == |sessionIds|
    ensures |r| == |questions|
  {
    seq(|questions|, i requires 0 <= i < |questions| =>
      CacheData(questions[i], deps[i], answers[i], embeddings[i], sessionIds[i]))
  }

  function CostOfData(d: CacheData): real {
    if TotalLength(d.answers) == 0 then 1.0 else TotalLength(d.answers) as real
  }

  function Costs(datas: seq<CacheData>): (r: seq<real>)
    ensures |r| == |datas| && forall i :: 0 <= i < |r| ==> r[i] >= 1.0
  {
    seq(|datas|, i requires 0 <= i < |datas| => CostOfData(datas[i]))
  }

  /** Evictions apart, the policy has been told of `ids`, each with the text length of its
      answers, and at least 1. */
  ghost predicate PolicyTold(h: seq<Access>, h': seq<Access>, ids: seq<Key>, answers: seq<seq<Answer>>)
    requires |ids| == |answers|
  {
    && h <= h' && |Unpopped(h'[|h|..])| == |ids|
    && forall i :: 0 <= i < |ids| ==>
         Unpopped(h'[|h|..])[i] ==
           Stored(ids[i], if TotalLength(answers[i]) >= 1 then TotalLength(answers[i]) as real else 1.0)
  }

  /** The import of the rows is the import of the parallel lists. */
  lemma Landed(cfg: M.Config, st: M.State, r: M.State, questions: seq<string>, deps: seq<seq<Dep>>, answers: seq<seq<Answer>>,
               embeddings: seq<Vector>, sessionIds: seq<Option<Name>>, ids: seq<Key>)
    requires |questions| == |deps| == |answers| == |embeddings| == |sessionIds| == |ids|
    requires var datas := Rows(questions, deps, answers, embeddings, sessionIds);
      Puts.Imported(cfg, st, r, ids, datas, Costs(datas))
    ensures forall i :: 0 <= i < |ids| && ids[i] in LiveIds(r.tables) ==>
      ReadsAs(r.tables, ids[i], questions[i], deps[i], answers[i], cfg.normalize(embeddings[i]), sessionIds[i])
    ensures forall k :: k in LiveIds(r.tables) && k in LiveIds(st.tables) ==> GetData(r.tables, k) == GetData(st.tables, k)
    ensures PolicyTold(st.index.accesses, r.index.accesses, ids, answers)
    ensures st.index.accesses <= r.index.accesses &&
      LiveIds(r.tables) == LiveIds(st.tables) + Members(ids) - Puts.PoppedIn(r.index.accesses[|st.index.accesses|..])
  {
    hide ReadsAs, GetData, LiveIds, Puts.PoppedIn, Unpopped;
  }

  // ---------- sql_storage.py ----------

  class SQLStorage {
    var questions: map<Key, Question>
    var answers: seq<AnswerRow>
    var deps: seq<DepRow>
    var sessions: map<nat, SessionRow>

    ghost function Abs(): Tables
      reads this
    {
      Tables(questions, answers, deps, sessions)
    }

    constructor (t: Tables)
      ensures Abs() == t
    {
      questions, answers, deps, sessions := t.questions, t.answers, t.deps, t.sessions;
    }

    method AddSessionRow(id: Key, session: Name, question: string)
      modifies this`sessions
      ensures Abs() == AddSession(old(Abs()), id, session, question)
    {
      var row := 0;
      var left := sessions.Keys;
      while left != {}
        invariant left <= sessions.Keys
        invariant forall i :: i in sessions.Keys - left ==> i <= row
        invariant if left == sessions.Keys then row == 0 else row in sessions.Keys
        decreases left
      {
        var i :| i in left;
        assert forall j :: j in sessions.Keys - (left - {i}) ==> j == i || j in sessions.Keys - left;
        left := left - {i};
        if i > row {
          row := i;
        }
      }
      assert sessions.Keys - left == sessions.Keys;
      LargestIs(sessions.Keys, row);
      sessions := sessions[row + 1 := SessionRow(id, session, question)];
    }

    static lemma LargestIs(ids: set<nat>, m: nat)
      requires forall i :: i in ids ==> i <= m
      requires if ids == {} then m == 0 else m in ids
      ensures Largest(ids) == m
    {
    }

    /** `_insert`: the question row, then its dependents. */
    method InsertRow(id: Key, data: CacheData)
      modifies this
      ensures Abs() == Insert(old(Abs()), id, data)
    {
      hide NextRow;
      questions := questions[id := Question(data.question, data.embedding, false)];
      ghost var deps0, answers0 := deps, answers;
      for i := 0 to |data.deps|
        invariant deps == deps0 + DepRows(id, data.deps)[..i]
        invariant questions == old(questions)[id := Question(data.question, data.embedding, false)]
        invariant answers == answers0 && sessions == old(sessions)
      {
        deps := deps + [DepRow(id, data.deps[i])];
      }
      assert DepRows(id, data.deps)[..|data.deps|] == DepRows(id, data.deps);
      for i := 0 to |data.answers|
        invariant answers == answers0 + AnswerRows(id, data.answers)[..i]
        invariant questions == old(questions)[id := Question(data.question, data.embedding, false)]
        invariant deps == deps0 + DepRows(id, data.deps) && sessions == old(sessions)
      {
        answers := answers + [AnswerRow(id, data.answers[i])];
      }
      assert AnswerRows(id, data.answers)[..|data.answers|] == AnswerRows(id, data.answers);
      if data.session.Some? {
        AddSessionRow(id, data.session.value, data.question);
      }
    }

    /** `batch_insert`; `ids` are the ones the database assigns. */
    method InsertAll(ids: seq<Key>, datas: seq<CacheData>)
      requires |ids| == |datas|
      modifies this
      ensures Abs() == BatchInsert(old(Abs()), ids, datas)
    {
      for i := 0 to |ids|
        invariant BatchInsert(Abs(), ids[i..], datas[i..]) == BatchInsert(old(Abs()), ids, datas)
      {
        assert ids[i..][1..] == ids[i + 1..] && datas[i..][1..] == datas[i + 1..];
        InsertRow(ids[i], datas[i]);
      }
    }

    method Mark(ks: seq<Key>)
      modifies this`questions
      ensures Abs() == MarkDeleted(old(Abs()), Members(ks))
    {
      questions := map k | k in questions :: if k in ks then questions[k].(deleted := true) else questions[k];
    }

    /** `clear_deleted_data`: dependents first, questions last. */
    method ClearDeletedData()
      modifies this
      ensures Abs() == ClearDeleted(old(Abs()))
    {
      var dead := set k | k in questions && questions[k].deleted;
      answers := Select(answers, OwnerOfAnswer(), Outside(dead));
      deps := Select(deps, OwnerOfDep(), Outside(dead));
      sessions := map r | r in sessions && sessions[r].owner !in dead :: sessions[r];
      questions := map k | k in questions && !questions[k].deleted :: questions[k];
    }

    /** `get_ids`, in no particular order. */
    method GetIds(deleted: bool) returns (ids: seq<Key>)
      ensures Distinct(ids) && Members(ids) == if deleted then DeadIds(Abs()) else LiveIds(Abs())
    {
      var left := set k | k in questions && questions[k].deleted == deleted;
      ghost var all := left;
      assert all == if deleted then DeadIds(Abs()) else LiveIds(Abs());
      ids := [];
      while left != {}
        invariant Distinct(ids) && Members(ids) == all - left && left <= all
        decreases left
      {
        var k :| k in left;
        assert k !in Members(ids) && Members(ids + [k]) == Members(ids) + {k};
        ids := ids + [k];
        left := left - {k};
      }
    }

    method Lookup(id: Key) returns (e: Option<Record>)
      ensures e == GetData(Abs(), id)
    {
      e := GetData(Tables(questions, answers, deps, sessions), id);
    }

    /** `list_sessions(session_id=...)` followed by `delete_session`. */
    method DropRows(session: Name)
      modifies this`sessions
      ensures Abs() == DropSession(old(Abs()), session)
    {
      var rows := set r | r in sessions && sessions[r].session == session;
      sessions := map r | r in sessions && r !in rows :: sessions[r];
    }
  }

  // ---------- vector_data/base.py ----------

  class VectorBase {
    var vectors: map<Key, Vector>

    constructor (vectors: map<Key, Vector>)
      ensures this.vectors == vectors
    {
      this.vectors := vectors;
    }

    method MulAdd(ids: seq<Key>, datas: seq<CacheData>)
      requires |ids| == |datas|
      modifies this
      ensures vectors == M.AddVectors(old(vectors), ids, datas)
    {
      for i := 0 to |ids|
        invariant M.AddVectors(vectors, ids[i..], datas[i..]) == M.AddVectors(old(vectors), ids, datas)
      {
        assert ids[i..][1..] == ids[i + 1..] && datas[i..][1..] == datas[i + 1..];
        vectors := vectors[ids[i] := datas[i].embedding];
      }
    }

    method Delete(ids: seq<Key>)
      modifies this
      ensures vectors == M.Without(old(vectors), Members(ids))
    {
      vectors := vectors - (set k | k in ids);
    }

    method Rebuild(ids: seq<Key>)
      modifies this
      ensures vectors == M.Only(old(vectors), Members(ids))
    {
      vectors := map k | k in vectors && k in ids :: vectors[k];
    }
  }

  // ---------- eviction_manager.py ----------

  class EvictionManager {
    const s: SQLStorage
    const v: VectorBase
    var deleteCount: nat

    constructor (s: SQLStorage, v: VectorBase)
      ensures this.s == s && this.v == v && deleteCount == 0
    {
      this.s, this.v, deleteCount := s, v, 0;
    }

    /** The manager's view of the stores, beside an eviction index it never touches. */
    ghost function Abs(index: Index): M.State
      reads this, s, v
    {
      M.State(s.Abs(), v.vectors, index, deleteCount)
    }

    method SoftEvict(ks: seq<Key>)
      modifies s
      ensures s.Abs() == MarkDeleted(old(s.Abs()), Members(ks))
    {
      s.Mark(ks);
    }

    /** None stands for ZeroDivisionError, on a store without rows. */
    method CheckEvict() returns (due: Option<bool>)
      ensures due == if s.questions == map[] then None else Some(M.MustSweep(s.Abs()))
    {
      var markCount := |set k | k in s.questions && s.questions[k].deleted|;
      var allCount := |s.questions|;
      assert (set k | k in s.questions && s.questions[k].deleted) == DeadIds(s.Abs());
      if markCount > M.MAX_MARK_COUNT {
        assert s.questions != map[];
        return Some(true);
      }
      due := if allCount == 0 then None else Some(markCount as real / allCount as real > M.MAX_MARK_RATE);
    }

    method Delete(ghost index: Index)
      modifies this, s, v
      ensures Abs(index) == M.Sweep(old(Abs(index)))
    {
      hide ClearDeleted, LiveIds, DeadIds, M.Without, M.Only;
      var ids := s.GetIds(true);
      s.ClearDeletedData();
      v.Delete(ids);
      deleteCount := deleteCount + 1;
      if deleteCount >= M.REBUILD_CONDITION {
        Rebuild(index);
      }
    }

    method Rebuild(ghost index: Index)
      modifies this, s, v
      ensures Abs(index) == M.Rebuild(old(Abs(index)))
    {
      hide ClearDeleted, LiveIds, DeadIds, M.Only;
      s.ClearDeletedData();
      var ids := s.GetIds(false);
      v.Rebuild(ids);
      deleteCount := 0;
    }
  }

  // ---------- data_manager.py ----------

  class SSDataManager {
    const s: SQLStorage
    const v: VectorBase
    const ix: EvictionIndex
    const em: EvictionManager
    const normalize: Vector -> Vector

    ghost function Cfg(): M.Config {
      M.Config(ix.maxsize, ix.cleanSize, ix.policy, normalize)
    }

    ghost function Abs(): M.State
      reads s, v, ix, em
    {
      M.State(s.Abs(), v.vectors, ix.Abs(), em.deleteCount)
    }

    /** The eviction manager works on this manager's own stores. */
    ghost predicate Wired() {
      em.s == s && em.v == v
    }

    ghost predicate Valid()
      reads s, v, ix, em
    {
      Wired() && M.Proper(Cfg()) && M.Agree(Cfg(), Abs(), {})
    }

    /** `__init__` over existing stores. */
    constructor (s: SQLStorage, v: VectorBase, maxsize: nat, cleanSize: nat, policy: Policy, normalize: Vector -> Vector)
      requires 1 <= cleanSize <= maxsize && Sound(policy)
      requires Owned(s.Abs()) && M.VectorsMatch(s.Abs(), v.vectors)
      modifies s, v
      ensures Valid() && this.s == s && this.v == v && fresh(ix) && fresh(em)
      ensures Cfg() == M.Config(maxsize, cleanSize, policy, normalize)
      ensures M.Bounded(old(s.Abs())) ==> M.Bounded(s.Abs())
      ensures Puts.Started(Cfg(), old(s.Abs()), old(v.vectors), Abs())
    {
      this.s, this.v, this.normalize := s, v, normalize;
      em := new EvictionManager(s, v);
      ix := new EvictionIndex(policy, maxsize, cleanSize);
      new;
      var ids := s.GetIds(false);
      assert {} + Members(ids) == Members(ids);
      var costs := seq(|ids|, _ => 1.0);
      ghost var st := Abs();
      PutIds(ids, costs);
      M.PutAllKeeps(Cfg(), st, ids, costs);
      Puts.StartUnfolds(Cfg(), st.tables, st.vectors, ids);
      Puts.StartLeaves(Cfg(), st.tables, st.vectors, ids);
    }

    /** `_clear`: soft-evict, check, sweep when due. */
    method Clear(ks: seq<Key>)
      requires Wired() && s.questions != map[]
      modifies em, s, v
      ensures Abs() == M.Clear(old(Abs()), ks)
    {
      em.SoftEvict(ks);
      M.MarkedNonEmpty(old(s.Abs()), Members(ks));
      var due := em.CheckEvict();
      if due.value {
        em.Delete(ix.Abs());
      }
    }

    /** `eviction_base.put`: the overflow loop calls back into `Clear` before the id is stored. */
    method PutIds(ids: seq<Key>, costs: seq<real>)
      requires Wired() && M.Proper(Cfg()) && Distinct(ids) && |costs| == |ids| && M.Agree(Cfg(), Abs(), Members(ids))
      modifies em, s, v, ix
      ensures Valid() && Abs() == M.PutAll(Cfg(), old(Abs()), ids, costs)
    {
      hide M.Agree, M.Proper, M.PutOne;
      assert ids[0..] == ids && costs[0..] == costs;
      for i := 0 to |ids|
        invariant Distinct(ids[i..]) && M.Proper(Cfg()) && M.Agree(Cfg(), Abs(), Members(ids[i..]))
        invariant M.PutAll(Cfg(), Abs(), ids[i..], costs[i..]) == M.PutAll(Cfg(), old(Abs()), ids, costs)
      {
        assert ids[i..][1..] == ids[i + 1..] && costs[i..][1..] == costs[i + 1..];
        M.TailPending(ids[i..]);
        PutId(ids[i], costs[i], Members(ids[i..]));
      }
      assert Members(ids[|ids|..]) == {};
    }

    method PutId(id: Key, cost: real, ghost pending: set<Key>)
      requires Wired() && M.Proper(Cfg()) && M.Agree(Cfg(), Abs(), pending) && id in pending
      modifies em, s, v, ix
      ensures M.Agree(Cfg(), Abs(), pending - {id})
      ensures Abs() == M.PutOne(Cfg(), old(Abs()), id, cost, pending)
    {
      hide M.Agree, M.Clear;
      ghost var st := Abs();
      M.RowsExist(Cfg(), st, pending, id);
      if id !in ix.keys {
        ghost var over := M.Overflows(Cfg(), st, id);
        if over {
          AtMost(Cfg(), st, pending);
          M.OverflowAgrees(Cfg(), st, pending);
        }
        while |ix.keys| + 1 > ix.maxsize
          invariant over ==> Abs() == st || Abs() == M.Overflow(Cfg(), st)
          invariant !over ==> Abs() == st
          decreases |ix.keys|
        {
          var reported := ix.PopBatch();
          Clear(reported);
          assert Abs() == M.Overflow(Cfg(), st);
        }
        assert Abs() == if over then M.Overflow(Cfg(), st) else st;
      }
      ix.StoreKey(id, cost);
      assert Abs() == M.PutOne(Cfg(), st, id, cost, pending);
    }

    static lemma AtMost(cfg: M.Config, st: M.State, pending: set<Key>)
      requires M.Agree(cfg, st, pending)
      ensures |st.index.keys| <= cfg.maxsize
    {
    }

    /** `import_data`; false stands for ParamError.  `ids` are the ids the database hands
        out for the new rows. */
    method ImportData(questions: seq<string>, deps: seq<seq<Dep>>, answers: seq<seq<Answer>>, embeddings: seq<Vector>,
                      sessionIds: seq<Option<Name>>, ids: seq<Key>) returns (ok: bool)
      requires Valid() && |deps| == |questions|
      requires |ids| == |questions| && M.Fresh(s.Abs(), ids)
      modifies em, s, v, ix
      ensures ok <==> |questions| == |answers| == |embeddings| == |sessionIds|
      ensures !ok ==> Abs() == old(Abs())
      ensures ok ==> Valid()
      ensures ok ==> var datas := Rows(questions, deps, answers, embeddings, sessionIds);
                     Abs() == M.Import(Cfg(), old(Abs()), ids, datas, Costs(datas))
      ensures ok ==> forall i :: 0 <= i < |ids| && ids[i] in LiveIds(s.Abs()) ==>
        ReadsAs(s.Abs(), ids[i], questions[i], deps[i], answers[i], normalize(embeddings[i]), sessionIds[i])
      ensures ok ==> forall k :: k in LiveIds(s.Abs()) && k in LiveIds(old(s.Abs())) ==>
        GetData(s.Abs(), k) == GetData(old(s.Abs()), k)
      ensures ok ==> PolicyTold(old(ix.accesses), ix.accesses, ids, answers)
      ensures ok ==> old(ix.accesses) <= ix.accesses
      ensures ok ==>
        LiveIds(s.Abs()) == LiveIds(old(s.Abs())) + Members(ids) - Puts.PoppedIn(ix.accesses[|old(ix.accesses)|..])
    {
      if |questions| != |answers| || |questions| != |embeddings| || |questions| != |sessionIds| {
        return false;
      }
      ghost var st := Abs();
      ghost var raw := Rows(questions, deps, answers, embeddings, sessionIds);
      var cacheDatas, costs := BuildRows(questions, deps, answers, embeddings, sessionIds);
      M.InsertedReady(Cfg(), st, ids, cacheDatas);
      hide M.Agree, M.Proper, BatchInsert, M.AddVectors, M.Fresh, M.PutAll, Rows, Costs, M.Normalized;
      s.InsertAll(ids, cacheDatas);
      v.MulAdd(ids, cacheDatas);
      assert Abs() == M.Inserted(st, ids, cacheDatas);
      PutIds(ids, costs);
      assert Abs() == M.Import(Cfg(), st, ids, raw, Costs(raw));
      Puts.ImportLeaves(Cfg(), st, ids, raw, Costs(raw));
      Landed(Cfg(), st, Abs(), questions, deps, answers, embeddings, sessionIds, ids);
      ok := true;
    }

    /** The loop of `import_data` over the parallel lists. */
    method BuildRows(questions: seq<string>, deps: seq<seq<Dep>>, answers: seq<seq<Answer>>, embeddings: seq<Vector>,
                     sessionIds: seq<Option<Name>>) returns (datas: seq<CacheData>, costs: seq<real>)
      requires |questions| == |deps| == |answers| == |embeddings| == |sessionIds|
      ensures datas == M.Normalized(Cfg(), Rows(questions, deps, answers, embeddings, sessionIds))
      ensures costs == Costs(Rows(questions, deps, answers, embeddings, sessionIds))
    {
      ghost var raw := Rows(questions, deps, answers, embeddings, sessionIds);
      datas, costs := [], [];
      for i := 0 to |questions|
        invariant datas == M.Normalized(Cfg(), raw)[..i] && costs == Costs(raw)[..i]
      {
        datas := datas + [CacheData(questions[i], deps[i], answers[i], normalize(embeddings[i]), sessionIds[i])];
        var cost := AnswerCost(answers[i]);
        costs := costs + [cost];
      }
    }

    /** `get_scalar_data` with the default session check: an entry is withheld from a
        session that is already recorded for it. */
    method GetScalarData(id: Key, session: Option<Name>) returns (e: Option<Record>)
      ensures e == if GetData(s.Abs(), id).Some? && session.Some? && session.value in SessionsOf(s.Abs(), id)
                   then None else GetData(s.Abs(), id)
    {
      e := s.Lookup(id);
      if e.Some? && session.Some? && session.value in e.value.sessions {
        e := None;
      }
    }

    method HitCacheCallback(id: Key)
      requires Valid()
      modifies ix
      ensures Valid() && Abs() == M.Serve(Cfg(), old(Abs()), M.Hit(id))
    {
      ix.Get(id);
    }

    method AddSessionTo(id: Key, session: Name, question: string)
      requires Valid() && id in LiveIds(s.Abs())
      modifies s
      ensures Valid() && Abs() == M.Serve(Cfg(), old(Abs()), M.Join(id, session, question))
    {
      s.AddSessionRow(id, session, question);
      assert Abs() == M.Serve(Cfg(), old(Abs()), M.Join(id, session, question));
    }

    method DeleteSession(session: Name)
      requires Valid()
      modifies s
      ensures Valid() && Abs() == M.Serve(Cfg(), old(Abs()), M.Leave(session))
    {
      s.DropRows(session);
      assert Abs() == M.Serve(Cfg(), old(Abs()), M.Leave(session));
    }
  }
}
