/** A request against SSDataManager at temperature 0 (adapter.py), and session isolation. */
module Serving {
  import opened Basics
  import opened SqlStorage
  import P = PolicyIndex
  import M = ManagerModel
  import DM = DataManager
  import opened Ranking

  /** What a request brings along: the vector search's hits in order, the session, the
      evaluator and the rank an entry must reach. */
  datatype Query = Query(search: seq<Key>, session: Option<Name>, question: string,
                         score: (Key, Record) -> real, threshold: real)

  /** `get_scalar_data` with the default check: withheld from sessions already recorded. */
  function Visible(t: Tables, id: Key, session: Option<Name>): (e: Option<Record>) {
    var e := GetData(t, id);
    if e.Some? && session.Some? && session.value in SessionsOf(t, id) then None else e
  }

  /** Every live entry has an answer; adapter.py indexes `answers[0]`. */
  predicate HasAnswers(t: Tables) {
    forall id :: id in LiveIds(t) ==> |AnswersOf(t, id)| > 0
  }

  predicate Passes(t: Tables, q: Query, id: Key) {
    var e := Visible(t, id, q.session);
    e.Some? && q.threshold <= q.score(id, e.value)
  }

  function AsCandidate(t: Tables, q: Query, id: Key): (c: Candidate)
    requires HasAnswers(t) && Passes(t, q, id)
    ensures c.id == id && id in LiveIds(t)
  {
    var e := Visible(t, id, q.session).value;
    Candidate(q.score(id, e), e.answers[0].answer.content, id)
  }

  /** The candidates, in search order. */
  function Candidates(t: Tables, q: Query, search: seq<Key>): (cs: seq<Candidate>)
    requires HasAnswers(t)
  {
    if |search| == 0 then []
    else
      var rest := Candidates(t, q, search[..|search| - 1]);
      var id := search[|search| - 1];
      if Passes(t, q, id) then rest + [AsCandidate(t, q, id)] else rest
  }

  lemma {:induction false} CandidatesPass(t: Tables, q: Query, search: seq<Key>)
    requires HasAnswers(t) && Distinct(search)
    ensures var cs := Candidates(t, q, search);
      && DistinctIds(cs)
      && (forall c :: c in cs ==> c.id in search && Passes(t, q, c.id) && c == AsCandidate(t, q, c.id))
      && (forall id :: id in search && Passes(t, q, id) ==> AsCandidate(t, q, id) in cs)
    decreases |search|
  {
    hide Passes, AsCandidate, HasAnswers;
    if |search| > 0 {
      var front, id := search[..|search| - 1], search[|search| - 1];
      CandidatesPass(t, q, front);
      assert search == front + [id];
      assert id !in front;
    }
  }

  datatype Reply = Miss | Served(answer: string, id: Key)

  /** The entry an answer comes from. */
  function Answer(t: Tables, q: Query): Reply
    requires HasAnswers(t)
  {
    var sorted := SortDown(Candidates(t, q, q.search));
    if |sorted| == 0 then Miss else Served(sorted[0].answer, sorted[0].id)
  }

  /** The entry that is recorded for the session. */
  function Recorded(t: Tables, q: Query): Key
    requires HasAnswers(t) && Answer(t, q).Served?
  {
    var sorted := SortDown(Candidates(t, q, q.search));
    LastWith(sorted, sorted[0].answer).id
  }

  function Hits(cs: seq<Candidate>): (qs: seq<M.Request>)
    ensures |qs| == |cs|
  {
    seq(|cs|, i requires 0 <= i < |cs| => M.Hit(cs[i].id))
  }

  /** What a request does to the stores: every candidate is touched; a hit joins the session
      to the recorded entry. */
  function Effects(t: Tables, q: Query): seq<M.Request>
    requires HasAnswers(t)
  {
    Hits(Candidates(t, q, q.search)) +
    if Answer(t, q).Served? && q.session.Some?
    then [M.Join(Recorded(t, q), q.session.value, q.question)] else []
  }

  // ---------- a served entry was visible ----------

  lemma CandidateOf(t: Tables, q: Query)
    requires HasAnswers(t) && Distinct(q.search)
    ensures Answer(t, q).Miss? <==> forall id :: id in q.search ==> !Passes(t, q, id)
    ensures Answer(t, q).Served? ==>
      && Passes(t, q, Answer(t, q).id) && Answer(t, q).id in LiveIds(t)
      && Recorded(t, q) in LiveIds(t) && Passes(t, q, Recorded(t, q))
  {
    hide Passes, LiveIds, HasAnswers, AsCandidate;
    var cs := Candidates(t, q, q.search);
    CandidatesPass(t, q, q.search);
    SortDownFacts(cs);
    InBoth(SortDown(cs), cs);
    if |cs| > 0 {
      assert SortDown(cs)[0] in cs;
      assert cs[0] in cs;
    }
  }

  /** The answer is a passing entry of maximal rank. */
  lemma AnswerIsBest(t: Tables, q: Query, id: Key)
    requires HasAnswers(t) && Distinct(q.search) && id in q.search && Passes(t, q, id)
    ensures Answer(t, q).Served? && Passes(t, q, Answer(t, q).id)
    ensures Answer(t, q).answer == AsCandidate(t, q, Answer(t, q).id).answer
    ensures AsCandidate(t, q, id).rank <= AsCandidate(t, q, Answer(t, q).id).rank
  {
    hide Passes, LiveIds, HasAnswers, AsCandidate;
    var cs := Candidates(t, q, q.search);
    CandidatesPass(t, q, q.search);
    CandidateOf(t, q);
    SortDownFacts(cs);
    InBoth(SortDown(cs), cs);
    var i := SortedHeadIsFirstBest(cs);
    var j :| 0 <= j < |cs| && cs[j] == AsCandidate(t, q, id);
    assert cs[j].rank <= cs[i].rank;
  }

  // ---------- session isolation ----------

  ghost predicate Knows(t: Tables, session: Name, id: Key) {
    session in SessionsOf(t, id)
  }

  /** An entry a session is recorded for is not served to it. */
  lemma KnownIsNotServed(t: Tables, q: Query, session: Name, id: Key)
    requires HasAnswers(t) && Distinct(q.search) && q.session == Some(session) && Knows(t, session, id)
    ensures Answer(t, q).Served? ==> Answer(t, q).id != id
  {
    CandidateOf(t, q);
  }

  ghost predicate OnlyHits(qs: seq<M.Request>) {
    forall i :: 0 <= i < |qs| ==> qs[i].Hit?
  }

  lemma {:induction false} HitsKeepTables(cfg: M.Config, st: M.State, qs: seq<M.Request>)
    requires M.Proper(cfg) && M.Agree(cfg, st, {}) && OnlyHits(qs)
    ensures M.AllAdmissible(cfg, st, qs) && M.Run(cfg, st, qs).tables == st.tables
    decreases |qs|
  {
    hide M.Agree, M.Proper;
    if |qs| > 0 {
      assert qs[0].Hit?;
      HitsKeepTables(cfg, M.Serve(cfg, st, qs[0]), qs[1..]);
    }
  }

  lemma {:induction false} RunAppend(cfg: M.Config, st: M.State, a: seq<M.Request>, b: seq<M.Request>)
    requires M.Proper(cfg) && M.Agree(cfg, st, {}) && M.AllAdmissible(cfg, st, a)
    requires M.AllAdmissible(cfg, M.Run(cfg, st, a), b)
    ensures M.AllAdmissible(cfg, st, a + b)
    ensures M.Run(cfg, st, a + b) == M.Run(cfg, M.Run(cfg, st, a), b)
    decreases |a|
  {
    hide M.Agree, M.Proper, M.Serve, M.Admissible;
    if |a| == 0 {
      assert a + b == b;
    } else {
      assert (a + b)[1..] == a[1..] + b;
      RunAppend(cfg, M.Serve(cfg, st, a[0]), a[1..], b);
    }
  }

  /** A request is an admissible run, and leaves the tables alone but for the one session
      row of a hit. */
  lemma EffectsOnTables(cfg: M.Config, st: M.State, q: Query)
    requires M.Proper(cfg) && M.Agree(cfg, st, {}) && HasAnswers(st.tables) && Distinct(q.search)
    ensures M.AllAdmissible(cfg, st, Effects(st.tables, q))
    ensures M.Run(cfg, st, Effects(st.tables, q)).tables ==
      if Answer(st.tables, q).Served? && q.session.Some?
      then AddSession(st.tables, Recorded(st.tables, q), q.session.value, q.question) else st.tables
  {
    hide M.Agree, M.Proper, LiveIds, Passes, HasAnswers, Recorded, Answer;
    var hits := Hits(Candidates(st.tables, q, q.search));
    HitsKeepTables(cfg, st, hits);
    CandidateOf(st.tables, q);
    if Answer(st.tables, q).Served? && q.session.Some? {
      var join := M.Join(Recorded(st.tables, q), q.session.value, q.question);
      OneRequest(cfg, M.Run(cfg, st, hits), join);
      RunAppend(cfg, st, hits, [join]);
    } else {
      assert hits + [] == hits;
    }
  }

  lemma OneRequest(cfg: M.Config, st: M.State, r: M.Request)
    requires M.Proper(cfg) && M.Agree(cfg, st, {}) && M.Admissible(st, r)
    ensures M.AllAdmissible(cfg, st, [r]) && M.Run(cfg, st, [r]) == M.Serve(cfg, st, r)
  {
    hide M.Agree, M.Proper, M.Serve, M.Admissible;
    assert [r][1..] == [];
  }

  /** Another passing entry carries the answer that is served. */
  predicate Shared(t: Tables, q: Query)
    requires HasAnswers(t) && Answer(t, q).Served?
  {
    exists id :: id in q.search && Passes(t, q, id) && id != Answer(t, q).id &&
      AsCandidate(t, q, id).answer == Answer(t, q).answer
  }

  lemma RecordedIff(t: Tables, q: Query)
    requires HasAnswers(t) && Answer(t, q).Served? && Distinct(q.search)
    ensures Recorded(t, q) == Answer(t, q).id <==> !Shared(t, q)
  {
    hide Passes, HasAnswers, AsCandidate;
    CandidatesPass(t, q, q.search);
    RecordsTheServedEntryIff(Candidates(t, q, q.search));
  }

  /** After a hit the session knows the entry it was served exactly when no other candidate
      carried the same answer; otherwise another entry was recorded in its place. */
  lemma ServedIsKnownIff(cfg: M.Config, st: M.State, q: Query, session: Name)
    requires M.Proper(cfg) && M.Agree(cfg, st, {}) && HasAnswers(st.tables) && Distinct(q.search)
    requires Answer(st.tables, q).Served? && q.session == Some(session)
    ensures M.AllAdmissible(cfg, st, Effects(st.tables, q))
    ensures Knows(M.Run(cfg, st, Effects(st.tables, q)).tables, session, Answer(st.tables, q).id) <==>
      !Shared(st.tables, q)
  {
    hide M.Agree, M.Proper, M.Run, M.AllAdmissible, HasAnswers, Shared, Recorded, AddSession, Effects, GetData, SessionsOf;
    EffectsOnTables(cfg, st, q);
    var t := st.tables;
    var k := Answer(t, q).id;
    CandidateOf(t, q);
    assert !Knows(t, session, k);
    SessionsAfterAdd(t, Recorded(t, q), session, q.question, k);
    RecordedIff(t, q);
  }

  // ---------- asking again ----------

  /** With its session recorded for `id`, a query sees every entry as before but that one. */
  lemma VisibleAfterJoin(t: Tables, q: Query, session: Name, id: Key, k: Key)
    requires q.session == Some(session)
    ensures var u := AddSession(t, id, session, q.question);
      && Visible(u, k, q.session) == (if k == id then None else Visible(t, k, q.session))
      && LiveIds(u) == LiveIds(t) && AnswersOf(u, k) == AnswersOf(t, k)
  {
    SessionsAfterAdd(t, id, session, q.question, k);
    assert SessionsOf(t, k) + {} == SessionsOf(t, k);
  }

  lemma {:induction false} CandidatesAfterJoin(t: Tables, q: Query, session: Name, id: Key, search: seq<Key>)
    requires HasAnswers(t) && q.session == Some(session)
    ensures var u := AddSession(t, id, session, q.question);
      HasAnswers(u) && Candidates(u, q, search) == Except(Candidates(t, q, search), id)
    decreases |search|
  {
    hide AddSession, Visible, AnswersOf, LiveIds;
    var u := AddSession(t, id, session, q.question);
    forall k
      ensures Visible(u, k, q.session) == (if k == id then None else Visible(t, k, q.session))
      ensures LiveIds(u) == LiveIds(t) && AnswersOf(u, k) == AnswersOf(t, k)
    {
      VisibleAfterJoin(t, q, session, id, k);
    }
    if |search| > 0 {
      var front, k := search[..|search| - 1], search[|search| - 1];
      CandidatesAfterJoin(t, q, session, id, front);
      if Passes(t, q, k) {
        ExceptAppend(Candidates(t, q, front), [AsCandidate(t, q, k)], id);
        ExceptOne(AsCandidate(t, q, k), id);
      }
    }
  }

  /** The same request, repeated right after a hit, is served the same entry again if and
      only if another passing entry carries the same answer; and then gets that answer. */
  lemma ServedAgainIff(cfg: M.Config, st: M.State, q: Query, session: Name)
    requires M.Proper(cfg) && M.Agree(cfg, st, {}) && HasAnswers(st.tables) && Distinct(q.search)
    requires Answer(st.tables, q).Served? && q.session == Some(session)
    ensures M.AllAdmissible(cfg, st, Effects(st.tables, q))
    ensures var t, u := st.tables, M.Run(cfg, st, Effects(st.tables, q)).tables;
      && HasAnswers(u)
      && (Answer(u, q).Served? && Answer(u, q).id == Answer(t, q).id <==> Shared(t, q))
      && (Shared(t, q) ==> Answer(u, q) == Answer(t, q))
  {
    var t, id := st.tables, Recorded(st.tables, q);
    EffectsOnTables(cfg, st, q);
    CandidatesAfterJoin(t, q, session, id, q.search);
    RecordedIff(t, q);
    SessionsAfterAdd(t, id, session, q.question, id);
    hide M.Agree, M.Proper, Passes, HasAnswers, AsCandidate, AddSession, SessionsOf, Candidates, Recorded;
    var u := AddSession(t, id, session, q.question);
    if id == Answer(t, q).id {
      KnownIsNotServed(u, q, session, id);
    } else {
      BestExcept(Candidates(t, q, q.search), id);
    }
  }

  /** A saved entry is known to the session that saved it. */
  lemma SavedIsKnown(cfg: M.Config, st: M.State, ids: seq<Key>, datas: seq<CacheData>, costs: seq<real>, i: nat, session: Name)
    requires M.Proper(cfg) && M.Agree(cfg, st, {}) && M.Fresh(st.tables, ids) && |datas| == |ids| == |costs|
    requires M.Bounded(st.tables) && i < |ids| && datas[i].session == Some(session)
    requires ids[i] in LiveIds(M.Import(cfg, st, ids, datas, costs).tables)
    ensures Knows(M.Import(cfg, st, ids, datas, costs).tables, session, ids[i])
  {
    M.ImportKeeps(cfg, st, ids, datas, costs);
    var t := M.Import(cfg, st, ids, datas, costs).tables;
    assert GetData(t, ids[i]) == M.Read(ids[i], M.Normalized(cfg, datas)[i]);
  }

  /** An id that is not live only becomes live by being handed out to a new entry. */
  lemma OnlySavesAddEntries(cfg: M.Config, st: M.State, r: M.Request, id: Key)
    requires M.Proper(cfg) && M.Agree(cfg, st, {}) && M.Admissible(st, r) && M.Bounded(st.tables)
    requires id !in LiveIds(st.tables) && id in LiveIds(M.Serve(cfg, st, r).tables)
    ensures r.Save? && id in r.ids
  {
    hide M.Agree, M.Proper, M.PutAll, M.Inserted, GetData, LiveIds, DeadIds, M.Normalized;
    SameLive(st.tables, M.Serve(cfg, st, r).tables);
    match r
    case Save(ids, datas, costs) =>
      var ds := M.Normalized(cfg, datas);
      M.InsertedReady(cfg, st, ids, ds);
      M.InsertedAgrees(cfg, st, ids, ds, {});
      var u := M.Inserted(st, ids, ds);
      M.PutAllKeeps(cfg, u, ids, costs);
      M.LiveReadable(u.tables, id);
      LiveAfterInsert(cfg, st, u, ids);
    case Hit(_) =>
    case Join(_, _, _) =>
    case Leave(_) =>
  }

  lemma SameLive(t: Tables, u: Tables)
    ensures t.questions == u.questions ==> LiveIds(t) == LiveIds(u)
  {
  }

  lemma LiveAfterInsert(cfg: M.Config, st: M.State, u: M.State, ids: seq<Key>)
    requires M.Agree(cfg, st, {}) && M.Agree(cfg, u, Members(ids)) && u.index == st.index
    ensures LiveIds(u.tables) == LiveIds(st.tables) + Members(ids)
  {
    hide LiveIds;
    assert st.index.keys + {} == st.index.keys;
  }

  /** A request whose entries all have answers leaves every live entry with one. */
  lemma ServeHasAnswers(cfg: M.Config, st: M.State, r: M.Request)
    requires M.Proper(cfg) && M.Agree(cfg, st, {}) && M.Admissible(st, r) && M.Bounded(st.tables)
    requires HasAnswers(st.tables)
    requires Answered(r)
    ensures HasAnswers(M.Serve(cfg, st, r).tables)
  {
    hide M.Agree, M.Proper, M.Import, M.Bounded, M.Fresh, NextRow;
    var t := M.Serve(cfg, st, r).tables;
    if r.Save? {
      M.ImportKeeps(cfg, st, r.ids, r.datas, r.costs);
      forall id | id in LiveIds(t)
        ensures |AnswersOf(t, id)| > 0
      {
        assert GetData(t, id).value.answers == AnswersOf(t, id);
        if id in LiveIds(st.tables) {
          assert GetData(t, id) == GetData(st.tables, id);
        } else {
          OnlySavesAddEntries(cfg, st, r, id);
          var i :| 0 <= i < |r.ids| && r.ids[i] == id;
          assert GetData(t, r.ids[i]) == M.Read(r.ids[i], M.Normalized(cfg, r.datas)[i]);
        }
      }
    } else {
      assert t.questions == st.tables.questions && t.answers == st.tables.answers;
      SameAnswers(st.tables, t);
    }
  }

  lemma SameAnswers(t: Tables, u: Tables)
    requires u.questions == t.questions && u.answers == t.answers && HasAnswers(t)
    ensures HasAnswers(u)
  {
    forall id | id in LiveIds(u)
      ensures |AnswersOf(u, id)| > 0
    {
      assert id in LiveIds(t) && AnswersOf(u, id) == AnswersOf(t, id);
    }
  }

  lemma ServeKeepsKnowledge(cfg: M.Config, st: M.State, r: M.Request, session: Name, id: Key)
    requires M.Proper(cfg) && M.Agree(cfg, st, {}) && M.Admissible(st, r) && M.Bounded(st.tables)
    requires Knows(st.tables, session, id) && r != M.Leave(session)
    requires id in LiveIds(st.tables) && id in LiveIds(M.Serve(cfg, st, r).tables)
    ensures Knows(M.Serve(cfg, st, r).tables, session, id)
  {
    match r
    case Save(ids, datas, costs) =>
      M.ImportKeeps(cfg, st, ids, datas, costs);
      assert GetData(M.Serve(cfg, st, r).tables, id) == GetData(st.tables, id);
    case Hit(_) =>
    case Join(k, s, question) =>
      SessionsAfterAdd(st.tables, k, s, question, id);
    case Leave(s) =>
      DropForgetsExactly(st.tables, s);
  }

  /** If `id` is live, the session is recorded for it. */
  ghost predicate Guarded(t: Tables, session: Name, id: Key) {
    id in LiveIds(t) ==> Knows(t, session, id)
  }

  /** A request that neither drops the session nor hands `id` out to a new entry. */
  predicate Keeps(r: M.Request, session: Name, id: Key) {
    r != M.Leave(session) && (r.Save? ==> id !in r.ids)
  }

  lemma ServeKeepsGuard(cfg: M.Config, st: M.State, r: M.Request, session: Name, id: Key)
    requires M.Proper(cfg) && M.Agree(cfg, st, {}) && M.Admissible(st, r) && M.Bounded(st.tables)
    requires Guarded(st.tables, session, id) && Keeps(r, session, id)
    ensures Guarded(M.Serve(cfg, st, r).tables, session, id)
  {
    hide M.Agree, M.Proper, M.Serve, M.Admissible, M.Bounded, Knows, LiveIds;
    if id in LiveIds(M.Serve(cfg, st, r).tables) {
      if id !in LiveIds(st.tables) {
        OnlySavesAddEntries(cfg, st, r, id);
      } else {
        ServeKeepsKnowledge(cfg, st, r, session, id);
      }
    }
  }

  /** Knowledge lasts until the session is dropped or the id is handed out anew. */
  lemma {:induction false} RunKeepsKnowledge(cfg: M.Config, st: M.State, qs: seq<M.Request>, session: Name, id: Key)
    requires M.Proper(cfg) && M.Agree(cfg, st, {}) && M.AllAdmissible(cfg, st, qs) && M.Bounded(st.tables)
    requires Guarded(st.tables, session, id) && forall r :: r in qs ==> Keeps(r, session, id)
    ensures Guarded(M.Run(cfg, st, qs).tables, session, id)
    decreases |qs|
  {
    hide M.Agree, M.Proper, M.Serve, M.Admissible, M.Bounded, Guarded, Keeps;
    if |qs| > 0 {
      ServeKeepsGuard(cfg, st, qs[0], session, id);
      M.ServeBounded(cfg, st, qs[0]);
      RunKeepsKnowledge(cfg, M.Serve(cfg, st, qs[0]), qs[1..], session, id);
    }
  }

  /** Every saved entry has an answer. */
  predicate Answered(r: M.Request) {
    r.Save? ==> forall i :: 0 <= i < |r.datas| ==> |r.datas[i].answers| > 0
  }

  /** As long as every saved entry has an answer, `answers[0]` exists in every run, and the
      storage bound holds. */
  lemma {:induction false} RunHasAnswers(cfg: M.Config, st: M.State, qs: seq<M.Request>)
    requires M.Proper(cfg) && M.Agree(cfg, st, {}) && M.AllAdmissible(cfg, st, qs) && M.Bounded(st.tables)
    requires HasAnswers(st.tables) && forall r :: r in qs ==> Answered(r)
    ensures HasAnswers(M.Run(cfg, st, qs).tables) && M.Bounded(M.Run(cfg, st, qs).tables)
    decreases |qs|
  {
    hide M.Agree, M.Proper, M.Serve, M.Admissible, M.Bounded, HasAnswers, Answered;
    if |qs| > 0 {
      ServeHasAnswers(cfg, st, qs[0]);
      M.ServeBounded(cfg, st, qs[0]);
      RunHasAnswers(cfg, M.Serve(cfg, st, qs[0]), qs[1..]);
    }
  }

  /** Isolation over runs: once a session is recorded for an entry, the entry is never served
      to it until the session is dropped or the id is handed out to a new entry. */
  lemma NotServedAgain(cfg: M.Config, st: M.State, qs: seq<M.Request>, session: Name, id: Key, q: Query)
    requires M.Proper(cfg) && M.Agree(cfg, st, {}) && M.AllAdmissible(cfg, st, qs) && M.Bounded(st.tables)
    requires HasAnswers(st.tables) && (forall r :: r in qs ==> Answered(r))
    requires Guarded(st.tables, session, id) && forall r :: r in qs ==> Keeps(r, session, id)
    requires q.session == Some(session) && Distinct(q.search)
    ensures HasAnswers(M.Run(cfg, st, qs).tables)
    ensures Answer(M.Run(cfg, st, qs).tables, q).Served? ==> Answer(M.Run(cfg, st, qs).tables, q).id != id
  {
    hide M.Agree, M.Proper, M.Run, M.Bounded, Guarded, HasAnswers, Answered, Keeps;
    RunHasAnswers(cfg, st, qs);
    RunKeepsKnowledge(cfg, st, qs, session, id);
    GuardedIsNotServed(M.Run(cfg, st, qs).tables, q, session, id);
  }

  lemma GuardedIsNotServed(t: Tables, q: Query, session: Name, id: Key)
    requires HasAnswers(t) && Distinct(q.search) && q.session == Some(session) && Guarded(t, session, id)
    ensures Answer(t, q).Served? ==> Answer(t, q).id != id
  {
    hide HasAnswers, Passes, Answer, Knows, LiveIds;
    CandidateOf(t, q);
    if id in LiveIds(t) {
      KnownIsNotServed(t, q, session, id);
    }
  }

  // ---------- the request itself ----------

  /** `adapt` up to the point where a hit returns, on an SSDataManager. */
  method Ask(mgr: DM.SSDataManager, q: Query) returns (reply: Reply)
    requires mgr.Valid() && HasAnswers(mgr.s.Abs()) && Distinct(q.search)
    modifies mgr.ix, mgr.s
    ensures mgr.Valid() && reply == Answer(old(mgr.s.Abs()), q)
    ensures M.AllAdmissible(mgr.Cfg(), old(mgr.Abs()), Effects(old(mgr.s.Abs()), q))
    ensures mgr.Abs() == M.Run(mgr.Cfg(), old(mgr.Abs()), Effects(old(mgr.s.Abs()), q))
  {
    hide M.Agree, M.Proper, LiveIds, HasAnswers, M.Serve, M.AllAdmissible, Answer, Recorded, GetData;
    ghost var t := mgr.s.Abs();
    ghost var st := mgr.Abs();
    EffectsOnTables(mgr.Cfg(), st, q);
    CandidateOf(t, q);
    CandidatesPass(t, q, q.search);
    var cs := Collect(mgr, q);
    var sorted := SortDown(cs);
    SortDownFacts(cs);
    RankedReply(t, q);
    if |sorted| == 0 {
      reply := Miss;
      NoEffects(cs);
      return;
    }
    reply := Served(sorted[0].answer, sorted[0].id);
    if q.session.Some? {
      var entry := LastWith(sorted, sorted[0].answer);
      ghost var joined := M.Join(entry.id, q.session.value, q.question);
      ghost var mid := mgr.Abs();
      HitsKeepTables(mgr.Cfg(), st, Hits(cs));
      mgr.AddSessionTo(entry.id, q.session.value, q.question);
      AdmissibleJoin(mid, joined);
      OneRequest(mgr.Cfg(), mid, joined);
      RunAppend(mgr.Cfg(), st, Hits(cs), [joined]);
    } else {
      assert Hits(cs) + [] == Hits(cs);
    }
  }

  lemma AdmissibleJoin(st: M.State, r: M.Request)
    requires r.Join? && r.id in LiveIds(st.tables)
    ensures M.Admissible(st, r)
  {
  }

  lemma NoEffects(cs: seq<Candidate>)
    requires |cs| == 0
    ensures Hits(cs) + [] == []
  {
  }

  lemma RankedReply(t: Tables, q: Query)
    requires HasAnswers(t)
    ensures var sorted := SortDown(Candidates(t, q, q.search));
      if |sorted| == 0 then Answer(t, q) == Miss
      else
        && Answer(t, q) == Served(sorted[0].answer, sorted[0].id)
        && Recorded(t, q) == LastWith(sorted, sorted[0].answer).id
  {
  }

  /** The candidate loop of `adapt`. */
  method Collect(mgr: DM.SSDataManager, q: Query) returns (cs: seq<Candidate>)
    requires mgr.Valid() && HasAnswers(mgr.s.Abs())
    modifies mgr.ix
    ensures mgr.Valid() && mgr.s.Abs() == old(mgr.s.Abs())
    ensures cs == Candidates(mgr.s.Abs(), q, q.search)
    ensures OnlyHits(Hits(cs)) && M.AllAdmissible(mgr.Cfg(), old(mgr.Abs()), Hits(cs))
    ensures mgr.Abs() == M.Run(mgr.Cfg(), old(mgr.Abs()), Hits(cs))
  {
    hide M.Agree, M.Proper, LiveIds, M.Serve, M.AllAdmissible;
    ghost var t := mgr.s.Abs();
    ghost var st := mgr.Abs();
    cs := [];
    HitsKeepTables(mgr.Cfg(), st, []);
    assert Hits(cs) == [];
    for i := 0 to |q.search|
      invariant mgr.Valid() && mgr.s.Abs() == t
      invariant cs == Candidates(t, q, q.search[..i])
      invariant OnlyHits(Hits(cs)) && M.AllAdmissible(mgr.Cfg(), st, Hits(cs))
      invariant mgr.Abs() == M.Run(mgr.Cfg(), st, Hits(cs))
    {
      var id := q.search[i];
      assert q.search[..i + 1][..i] == q.search[..i];
      var e := mgr.GetScalarData(id, q.session);
      if e.Some? {
        var rank := q.score(id, e.value);
        if q.threshold <= rank {
          AnswerPresent(t, id, q.session);
          ghost var mid := mgr.Abs();
          ghost var before := Hits(cs);
          cs := cs + [Candidate(rank, e.value.answers[0].answer.content, id)];
          mgr.HitCacheCallback(id);
          OneRequest(mgr.Cfg(), mid, M.Hit(id));
          RunAppend(mgr.Cfg(), st, before, [M.Hit(id)]);
          assert Hits(cs) == before + [M.Hit(id)];
        }
      }
    }
    assert q.search[..|q.search|] == q.search;
  }

  lemma AnswerPresent(t: Tables, id: Key, session: Option<Name>)
    requires HasAnswers(t) && Visible(t, id, session).Some?
    ensures |Visible(t, id, session).value.answers| > 0
  {
  }
}
