/** What a request answers, records, touches and saves, in terms of the stored entries and the
    evaluator alone. */
module Requests {
  import opened Basics
  import opened SqlStorage
  import opened Ranking
  import opened Serving
  import M = ManagerModel
  import P = PolicyIndex
  import Puts = ManagerPuts
  import DM = DataManager
  import opened Sessions

  /** A live entry that is not recorded for the asking session and reaches the threshold. */
  predicate Eligible(t: Tables, q: Query, id: Key) {
    var e := GetData(t, id);
    && e.Some?
    && (q.session.Some? ==> q.session.value !in e.value.sessions)
    && q.score(id, e.value) >= q.threshold
  }

  function Score(t: Tables, q: Query, id: Key): real
    requires GetData(t, id).Some?
  {
    q.score(id, GetData(t, id).value)
  }

  /** The text of the entry's first answer. */
  function FirstAnswer(t: Tables, id: Key): string
    requires HasAnswers(t) && GetData(t, id).Some?
  {
    GetData(t, id).value.answers[0].answer.content
  }

  lemma PassesMeans(t: Tables, q: Query, id: Key)
    ensures Passes(t, q, id) <==> Eligible(t, q, id)
    ensures HasAnswers(t) && Eligible(t, q, id) ==>
      AsCandidate(t, q, id) == Candidate(Score(t, q, id), FirstAnswer(t, id), id)
  {
    hide HasAnswers;
  }

  // ---------- who is served, who is recorded ----------

  /** Position `i` of the search result outranks position `j`: a higher score, or the same
      score and earlier. */
  predicate Outranks(t: Tables, q: Query, i: nat, j: nat)
    requires i < |q.search| && j < |q.search| && Eligible(t, q, q.search[i]) && Eligible(t, q, q.search[j])
  {
    var x, y := Score(t, q, q.search[i]), Score(t, q, q.search[j]);
    x > y || (x == y && i < j)
  }

  lemma {:induction false} CandidatesInOrder(t: Tables, q: Query, search: seq<Key>, p: nat, r: nat) returns (i: nat, j: nat)
    requires HasAnswers(t) && p < r < |Candidates(t, q, search)|
    ensures i < j < |search|
    ensures search[i] == Candidates(t, q, search)[p].id && search[j] == Candidates(t, q, search)[r].id
    decreases |search|
  {
    hide Passes, HasAnswers, AsCandidate;
    var front, id := search[..|search| - 1], search[|search| - 1];
    var cs := Candidates(t, q, front);
    if r < |cs| {
      i, j := CandidatesInOrder(t, q, front, p, r);
    } else {
      i := CandidateAt(t, q, front, p);
      j := |search| - 1;
      assert front[i] == search[i];
      IdOfCandidate(t, q, id);
    }
  }

  lemma IdOfCandidate(t: Tables, q: Query, id: Key)
    requires HasAnswers(t)
    ensures Passes(t, q, id) ==> AsCandidate(t, q, id).id == id
  {
    hide HasAnswers;
  }

  lemma {:induction false} CandidateAt(t: Tables, q: Query, search: seq<Key>, p: nat) returns (i: nat)
    requires HasAnswers(t) && p < |Candidates(t, q, search)|
    ensures i < |search| && search[i] == Candidates(t, q, search)[p].id
    decreases |search|
  {
    hide Passes, HasAnswers, AsCandidate;
    var front, id := search[..|search| - 1], search[|search| - 1];
    if p < |Candidates(t, q, front)| {
      i := CandidateAt(t, q, front, p);
    } else {
      i := |search| - 1;
      IdOfCandidate(t, q, id);
    }
  }

  lemma PositionsAreUnique(search: seq<Key>, i: nat, j: nat)
    requires Distinct(search) && i < |search| && j < |search| && search[i] == search[j]
    ensures i == j
  {
  }

  /** Precedence among candidates is rank among search positions. */
  lemma PrecedenceIsRank(t: Tables, q: Query, i: nat, j: nat)
    requires HasAnswers(t) && Distinct(q.search) && i < |q.search| && j < |q.search|
    requires Eligible(t, q, q.search[i]) && Eligible(t, q, q.search[j])
    requires Passes(t, q, q.search[i]) && Passes(t, q, q.search[j])
    requires Precedes(Candidates(t, q, q.search), AsCandidate(t, q, q.search[i]), AsCandidate(t, q, q.search[j]))
    ensures Outranks(t, q, i, j)
  {
    PassesMeans(t, q, q.search[i]);
    PassesMeans(t, q, q.search[j]);
    hide Passes, HasAnswers, AsCandidate, Eligible, GetData, Candidates;
    var cs := Candidates(t, q, q.search);
    var x, y := AsCandidate(t, q, q.search[i]), AsCandidate(t, q, q.search[j]);
    if x.rank == y.rank {
      var p, r :| 0 <= p < r < |cs| && cs[p] == x && cs[r] == y;
      var i', j' := CandidatesInOrder(t, q, q.search, p, r);
      PositionsAreUnique(q.search, i, i');
      PositionsAreUnique(q.search, j, j');
    }
  }

  /** The answer served is the first answer of the eligible entry that outranks all others;
      there is none if and only if no search result is eligible. */
  ghost predicate Best(t: Tables, q: Query, i: nat)
    requires i < |q.search| && Eligible(t, q, q.search[i])
  {
    forall j :: 0 <= j < |q.search| && j != i && Eligible(t, q, q.search[j]) ==> Outranks(t, q, i, j)
  }

  lemma AnswerIs(t: Tables, q: Query) returns (i: nat)
    requires HasAnswers(t) && Distinct(q.search)
    ensures Serving.Answer(t, q).Miss? <==> forall k :: k in q.search ==> !Eligible(t, q, k)
    ensures Serving.Answer(t, q).Served? ==>
      && i < |q.search| && Eligible(t, q, q.search[i]) && Best(t, q, i)
      && Serving.Answer(t, q) == Served(FirstAnswer(t, q.search[i]), q.search[i])
  {
    hide Passes, HasAnswers, AsCandidate, Eligible, GetData, Candidates, Score, FirstAnswer, InPrecedence, Outranks, LiveIds;
    var cs := Candidates(t, q, q.search);
    var sorted := SortDown(cs);
    CandidatesPass(t, q, q.search);
    CandidateOf(t, q);
    SortDownFacts(cs);
    InBoth(sorted, cs);
    SortIsStable(cs);
    forall k
      ensures Passes(t, q, k) <==> Eligible(t, q, k)
    {
      PassesMeans(t, q, k);
    }
    i := 0;
    if |sorted| > 0 {
      var x := sorted[0];
      assert x in cs;
      i :| 0 <= i < |q.search| && q.search[i] == x.id;
      PassesMeans(t, q, x.id);
      forall j | 0 <= j < |q.search| && j != i && Eligible(t, q, q.search[j])
        ensures Outranks(t, q, i, j)
      {
        var y := AsCandidate(t, q, q.search[j]);
        IdOfCandidate(t, q, q.search[j]);
        assert y in sorted;
        var n :| 0 <= n < |sorted| && sorted[n] == y;
        assert n != 0;
        HeadPrecedes(cs, sorted, 0, n);
        PrecedenceIsRank(t, q, i, j);
      }
    }
  }

  lemma HeadPrecedes(cs: seq<Candidate>, sorted: seq<Candidate>, i: nat, j: nat)
    requires InPrecedence(cs, sorted) && i < j < |sorted|
    ensures Precedes(cs, sorted[i], sorted[j])
  {
  }

  /** Position `j` is eligible too, with the first answer of position `i`. */
  predicate SameAnswer(t: Tables, q: Query, i: nat, j: nat)
    requires HasAnswers(t) && i < |q.search| && j < |q.search| && Eligible(t, q, q.search[i])
  {
    Eligible(t, q, q.search[j]) && FirstAnswer(t, q.search[j]) == FirstAnswer(t, q.search[i])
  }

  /** The entry recorded for the session is the eligible one that all others with the same
      first answer outrank. */
  ghost predicate Worst(t: Tables, q: Query, i: nat)
    requires HasAnswers(t) && i < |q.search| && Eligible(t, q, q.search[i])
  {
    forall j :: 0 <= j < |q.search| && j != i && SameAnswer(t, q, i, j) ==> Outranks(t, q, j, i)
  }

  lemma RecordedIs(t: Tables, q: Query) returns (i: nat)
    requires HasAnswers(t) && Distinct(q.search) && Serving.Answer(t, q).Served?
    ensures i < |q.search| && Eligible(t, q, q.search[i]) && Worst(t, q, i)
    ensures Recorded(t, q) == q.search[i] && FirstAnswer(t, q.search[i]) == Serving.Answer(t, q).answer
  {
    hide Passes, HasAnswers, AsCandidate, Eligible, GetData, Candidates, Score, FirstAnswer, InPrecedence, Outranks, LiveIds;
    var cs := Candidates(t, q, q.search);
    var sorted := SortDown(cs);
    CandidatesPass(t, q, q.search);
    SortDownFacts(cs);
    InBoth(sorted, cs);
    SortIsStable(cs);
    var r := LastWith(sorted, sorted[0].answer);
    assert r in cs;
    i :| 0 <= i < |q.search| && q.search[i] == r.id;
    PassesMeans(t, q, r.id);
    forall j | 0 <= j < |q.search| && j != i && SameAnswer(t, q, i, j)
      ensures Outranks(t, q, j, i)
    {
      PassesMeans(t, q, q.search[j]);
      var y := AsCandidate(t, q, q.search[j]);
      assert y in sorted && y.answer == r.answer == sorted[0].answer;
      var n :| 0 <= n < |sorted| && sorted[n] == y;
      LastWithIsLast(sorted, n);
      var m :| n <= m < |sorted| && LastWith(sorted, y.answer) == sorted[m];
      IdOfCandidate(t, q, q.search[j]);
      assert m != n;
      HeadPrecedes(cs, sorted, n, m);
      PrecedenceIsRank(t, q, j, i);
    }
  }

  // ---------- what the policy hears of a request ----------

  /** The eligible entries in search order. */
  function EligibleOf(t: Tables, q: Query, search: seq<Key>): seq<Key> {
    if |search| == 0 then []
    else
      var rest, id := EligibleOf(t, q, search[..|search| - 1]), search[|search| - 1];
      if Eligible(t, q, id) then rest + [id] else rest
  }

  function Touches(ids: seq<Key>): (h: seq<P.Access>)
    ensures |h| == |ids| && forall i :: 0 <= i < |ids| ==> h[i] == P.Touched(ids[i])
  {
    seq(|ids|, i requires 0 <= i < |ids| => P.Touched(ids[i]))
  }

  lemma {:induction false} CandidatesAreEligible(t: Tables, q: Query, search: seq<Key>)
    requires HasAnswers(t)
    ensures var cs := Candidates(t, q, search);
      && |cs| == |EligibleOf(t, q, search)|
      && forall i :: 0 <= i < |cs| ==> cs[i].id == EligibleOf(t, q, search)[i] && cs[i].id in LiveIds(t)
    decreases |search|
  {
    hide Passes, HasAnswers, AsCandidate, Eligible, LiveIds;
    if |search| > 0 {
      CandidatesAreEligible(t, q, search[..|search| - 1]);
      PassesMeans(t, q, search[|search| - 1]);
      CandidateLives(t, q, search[|search| - 1]);
    }
  }

  lemma CandidateLives(t: Tables, q: Query, id: Key)
    requires HasAnswers(t)
    ensures Passes(t, q, id) ==> AsCandidate(t, q, id).id == id && id in LiveIds(t)
  {
    hide HasAnswers;
  }

  lemma TouchesFirst(ids: seq<Key>)
    ensures Touches(ids) == if |ids| == 0 then [] else [P.Touched(ids[0])] + Touches(ids[1..])
  {
  }

  lemma HitTells(cfg: M.Config, st: M.State, id: Key)
    requires M.Proper(cfg) && M.Agree(cfg, st, {}) && id in LiveIds(st.tables)
    ensures M.Serve(cfg, st, M.Hit(id)) == st.(index := P.Index(st.index.keys, st.index.accesses + [P.Touched(id)]))
  {
    hide M.Proper, M.Agree, LiveIds;
    M.AgreeCounts(cfg, st);
  }

  lemma {:induction false} HitsTell(cfg: M.Config, st: M.State, ids: seq<Key>, qs: seq<M.Request>)
    requires M.Proper(cfg) && M.Agree(cfg, st, {}) && M.AllAdmissible(cfg, st, qs) && |qs| == |ids|
    requires forall i :: 0 <= i < |ids| ==> qs[i] == M.Hit(ids[i]) && ids[i] in LiveIds(st.tables)
    ensures M.Run(cfg, st, qs) == st.(index := P.Index(st.index.keys, st.index.accesses + Touches(ids)))
    decreases |qs|
  {
    hide M.Proper, M.Agree, LiveIds, M.Serve, M.Admissible, Touches;
    TouchesFirst(ids);
    if |qs| == 0 {
      assert st.index.accesses + [] == st.index.accesses;
    } else {
      assert qs[0] == M.Hit(ids[0]);
      HitTells(cfg, st, ids[0]);
      var u := M.Serve(cfg, st, qs[0]);
      HitsTell(cfg, u, ids[1..], qs[1..]);
    }
  }

  /** Every eligible entry is touched once, in search order; and a hit adds one session row,
      for the recorded entry and the question asked. */
  lemma EffectsAre(cfg: M.Config, st: M.State, q: Query)
    requires M.Proper(cfg) && M.Agree(cfg, st, {}) && HasAnswers(st.tables) && Distinct(q.search)
    ensures M.AllAdmissible(cfg, st, Effects(st.tables, q))
    ensures var r := M.Run(cfg, st, Effects(st.tables, q));
      && r.index == P.Index(st.index.keys, st.index.accesses + Touches(EligibleOf(st.tables, q, q.search)))
      && r.vectors == st.vectors && r.deleteCount == st.deleteCount
      && if Serving.Answer(st.tables, q).Served? && q.session.Some?
         then RowAdded(st.tables, r.tables, SessionRow(Recorded(st.tables, q), q.session.value, q.question))
         else r.tables == st.tables
  {
    hide M.Agree, M.Proper, LiveIds, Passes, HasAnswers, Recorded, Serving.Answer, Candidates, Eligible, EligibleOf, RowAdded;
    var t, cs := st.tables, Candidates(st.tables, q, q.search);
    var hits, ids := Hits(cs), EligibleOf(st.tables, q, q.search);
    HitsKeepTables(cfg, st, hits);
    CandidatesAreEligible(t, q, q.search);
    HitsTell(cfg, st, ids, hits);
    EffectsOnTables(cfg, st, q);
    CandidateOf(t, q);
    if Serving.Answer(t, q).Served? && q.session.Some? {
      var join := M.Join(Recorded(t, q), q.session.value, q.question);
      var u := M.Run(cfg, st, hits);
      OneRequest(cfg, u, join);
      RunAppend(cfg, st, hits, [join]);
      AddSessionAddsRow(t, Recorded(t, q), q.session.value, q.question);
    } else {
      assert hits + [] == hits;
    }
  }

  // ---------- whole steps ----------

  /** The text length of the answers, at least 1. */
  function CostOf(answers: seq<Answer>): real {
    if DM.TotalLength(answers) >= 1 then DM.TotalLength(answers) as real else 1.0
  }

  /** A request that is served leaves every question, answer and vector as it was. */
  lemma ServedRequest(cfg: M.Config, st: M.State, q: Query, f: Option<Fetched>)
    requires Ready(cfg, st) && Distinct(q.search) && Serving.Answer(st.tables, q).Served?
    ensures var r := Play(cfg, st, Request(q, false, f));
      && r.index == P.Index(st.index.keys, st.index.accesses + Touches(EligibleOf(st.tables, q, q.search)))
      && r.vectors == st.vectors
      && if q.session.Some?
         then RowAdded(st.tables, r.tables, SessionRow(Recorded(st.tables, q), q.session.value, q.question))
         else r.tables == st.tables
  {
    hide M.Agree, M.Proper, M.Bounded, HasAnswers, Serving.Answer, Effects, Recorded, EligibleOf, RowAdded;
    EffectsAre(cfg, st, q);
  }

  /** A miss with nothing fetched changes nothing. */
  lemma MissedRequest(cfg: M.Config, st: M.State, q: Query, skip: bool)
    requires Ready(cfg, st) && Distinct(q.search) && ReplyTo(st.tables, q, skip).Miss?
    ensures Play(cfg, st, Request(q, skip, None)) == st
  {
    hide M.Agree, M.Proper, M.Bounded, HasAnswers, Serving.Answer;
  }

  /** A miss, or a skipped lookup, with something fetched saves it: the entry is live, reads as
      fetched with the session of the request, the policy hears its cost last, and no other
      live entry reads differently. */
  lemma FetchedRequest(cfg: M.Config, st: M.State, q: Query, skip: bool, f: Fetched)
    requires Ready(cfg, st) && Possible(st.tables, Request(q, skip, Some(f))) && ReplyTo(st.tables, q, skip).Miss?
    ensures var r := Play(cfg, st, Request(q, skip, Some(f)));
      && ReadsAs(r.tables, f.id, f.question, f.deps, f.answers, cfg.normalize(f.embedding), q.session)
      && (forall k :: k in LiveIds(r.tables) && k in LiveIds(st.tables) ==> GetData(r.tables, k) == GetData(st.tables, k))
      && st.index.accesses <= r.index.accesses
      && var news := r.index.accesses[|st.index.accesses|..];
         && P.Unpopped(news) == [P.Stored(f.id, CostOf(f.answers))]
         && LiveIds(r.tables) == LiveIds(st.tables) + {f.id} - Puts.PoppedIn(news)
         && (|LiveIds(st.tables)| < cfg.maxsize ==> Puts.PoppedIn(news) == {})
  {
    hide M.Agree, M.Proper, M.Bounded, HasAnswers, Serving.Answer, M.Import, ReadsAs, GetData, LiveIds, Puts.PoppedIn,
         P.Unpopped, M.Fresh;
    OneIsFresh(st.tables, f.id);
    SavedOne(cfg, st, q, f);
    var data := DataOf(q, f);
    Puts.ImportLeaves(cfg, st, [f.id], [data], DM.Costs([data]));
    var r := Play(cfg, st, Request(q, skip, Some(f)));
    assert r == M.Import(cfg, st, [f.id], [data], DM.Costs([data]));
    assert [f.id][0] in LiveIds(r.tables);
    assert Puts.Stores([f.id], DM.Costs([data])) == [P.Stored(f.id, CostOf(f.answers))];
    assert Members([f.id]) == {f.id};
  }

  /** A bulk import leaves its rows as given, each put with its own cost. */
  lemma BulkImport(cfg: M.Config, st: M.State, ids: seq<Key>, datas: seq<CacheData>)
    requires Ready(cfg, st) && Possible(st.tables, Bulk(ids, datas))
    ensures var r := Play(cfg, st, Bulk(ids, datas));
      && (forall i :: 0 <= i < |ids| && ids[i] in LiveIds(r.tables) ==>
            ReadsAs(r.tables, ids[i], datas[i].question, datas[i].deps, datas[i].answers,
                    cfg.normalize(datas[i].embedding), datas[i].session))
      && (forall k :: k in LiveIds(r.tables) && k in LiveIds(st.tables) ==> GetData(r.tables, k) == GetData(st.tables, k))
      && st.index.accesses <= r.index.accesses
      && var stores := P.Unpopped(r.index.accesses[|st.index.accesses|..]);
         |stores| == |ids| && forall i :: 0 <= i < |ids| ==> stores[i] == P.Stored(ids[i], CostOf(datas[i].answers))
  {
    hide M.Agree, M.Proper, M.Bounded, HasAnswers, M.Import, ReadsAs, GetData, LiveIds, Puts.PoppedIn, P.Unpopped, M.Fresh;
    var costs := DM.Costs(datas);
    DoingsAdmissible(cfg, st, Bulk(ids, datas));
    OneRequest(cfg, st, M.Save(ids, datas, costs));
    Puts.ImportLeaves(cfg, st, ids, datas, costs);
  }

  /** An ended session leaves everything but its own rows. */
  lemma EndedSession(cfg: M.Config, st: M.State, session: Name)
    requires Ready(cfg, st)
    ensures var r := Play(cfg, st, End(session));
      && r == st.(tables := r.tables) && r.tables == st.tables.(sessions := r.tables.sessions)
      && (forall i :: i in r.tables.sessions <==> i in st.tables.sessions && st.tables.sessions[i].session != session)
      && (forall i :: i in r.tables.sessions ==> r.tables.sessions[i] == st.tables.sessions[i])
  {
    hide M.Agree, M.Proper, M.Bounded, HasAnswers;
    DoingsAdmissible(cfg, st, End(session));
    OneRequest(cfg, st, M.Leave(session));
    DropForgetsExactly(st.tables, session);
  }
}
