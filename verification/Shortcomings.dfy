/** One concrete input for each way in which the code falls short of its intention.  The
    exact conditions are proved in the modules named. */
module Shortcomings {
  import opened Basics
  import opened Heapq
  import opened SqlStorage
  import G = GdsfModel
  import P = PolicyIndex
  import M = ManagerModel
  import Eviction
  import ManagerPuts
  import Ranking
  import Serving
  import Sessions
  import SequenceMatch
  import TemplateValues
  import TemplateEndings

  function Wrapped(maxsize: nat, cleanSize: nat): G.Config {
    G.Config(maxsize, _ => 1, G.Gdsf, G.Batched(cleanSize))
  }

  /** The first set of a run. */
  lemma FirstSet(cfg: G.Config, a: Key, v: G.Value) returns (s: G.Cache)
    requires cfg.getsizeof(v) <= cfg.maxsize && G.Valid(cfg, G.Empty())
    ensures G.Returns(cfg, G.Empty(), a, v) && s == G.SetItem(cfg, G.Empty(), a, v)
    ensures s.data == map[a := v] && s.currsize == cfg.getsizeof(v) && s.inflation == 0.0
    ensures s.past.evicted == [] && s.past.calls == []
    ensures a in s.prio && s.prio[a] == G.Priority(cfg, 0.0, 1, v)
    ensures s.heap == {Entry(s.prio[a], 0, a)}
  {
    hide G.Priority, G.Valid, G.Popitem;
    s := G.SetItem(cfg, G.Empty(), a, v);
    assert G.Room(cfg, G.Empty(), a, v) == G.Empty();
  }

  // ---------- Eviction.BatchLosesNothingIff, Eviction.OverflowReportsIff ----------

  /** Maximum 1, clean size 2: the second set evicts the first key and `on_evict` is given
      an empty list. */
  lemma EvictedKeyIsLost(a: Key, b: Key)
    requires a != b
    ensures var t := G.Reached(Wrapped(1, 2), [G.Set(a, G.Other), G.Set(b, G.Other)]);
      t.past.evicted == [a] && t.past.calls == [[]] && t.data == map[b := G.Other]
  {
    var cfg := Wrapped(1, 2);
    G.EmptyValid(cfg);
    var s := FirstSet(cfg, a, G.Other);
    SecondSet(cfg, s, a, b);
    hide G.Valid, G.SetItem, G.Reached;
    TwoSteps(cfg, G.Set(a, G.Other), G.Set(b, G.Other));
  }

  lemma SecondSet(cfg: G.Config, s: G.Cache, a: Key, b: Key)
    requires cfg == Wrapped(1, 2) && G.Valid(cfg, s) && a != b
    requires s.data == map[a := G.Other] && s.currsize == 1 && s.past.evicted == [] && s.past.calls == []
    ensures var t := G.SetItem(cfg, s, b, G.Other);
      t.past.evicted == [a] && t.past.calls == [[]] && t.data == map[b := G.Other]
  {
    hide G.Valid, G.Push, G.PopBatch, G.MakeRoom;
    BatchOfTwo(cfg, s, a);
    assert |s.data| == 1;
    Eviction.OverflowIsOneBatch(cfg, s);
    var room := G.PopBatch(cfg, s, 2);
    assert G.Room(cfg, s, b, G.Other) == room;
    PushKeeps(cfg, G.Store(cfg, room, b, G.Other), b, G.Other);
  }

  lemma OneStep(cfg: G.Config, p: G.Op)
    requires G.Progressive(cfg) && G.Valid(cfg, G.Empty())
    ensures G.Reached(cfg, [p]) == G.Step(cfg, G.Empty(), p)
  {
    hide G.Valid, G.Step;
    var s := G.Step(cfg, G.Empty(), p);
    assert G.Run(cfg, s, []) == s && [p][1..] == [];
    assert G.Run(cfg, G.Empty(), [p]) == G.Run(cfg, s, [p][1..]);
  }

  lemma TwoSteps(cfg: G.Config, p: G.Op, q: G.Op)
    requires G.Progressive(cfg) && G.Valid(cfg, G.Empty())
    ensures G.Reached(cfg, [p, q]) == G.Step(cfg, G.Step(cfg, G.Empty(), p), q)
  {
    hide G.Valid, G.Step;
    var s := G.Step(cfg, G.Empty(), p);
    var t := G.Step(cfg, s, q);
    assert [p, q][1..] == [q] && [q][1..] == [];
    assert G.Run(cfg, t, []) == t;
    assert G.Run(cfg, s, [q]) == G.Run(cfg, t, [q][1..]);
    assert G.Run(cfg, G.Empty(), [p, q]) == G.Run(cfg, s, [p, q][1..]);
  }

  lemma PushKeeps(cfg: G.Config, s: G.Cache, k: Key, v: G.Value)
    requires k in s.freq
    ensures G.Push(cfg, s, k, v).data == s.data && G.Push(cfg, s, k, v).past == s.past
  {
  }

  lemma BatchOfTwo(cfg: G.Config, s: G.Cache, a: Key)
    requires G.Valid(cfg, s) && s.data == map[a := G.Other] && s.past.evicted == [] && s.past.calls == []
    ensures var r := G.PopBatch(cfg, s, 2);
      r.past.evicted == [a] && r.past.calls == [[]] && r.data == map[]
  {
    hide G.Valid, G.Evict, G.Victim, G.Victims;
    assert a in s.data;
    Eviction.EvictTakesVictim(cfg, s);
    Eviction.VictimResides(cfg, s);
    Eviction.BatchReports(cfg, s, 2);
    var u := G.Evict(cfg, s);
    assert G.Victim(cfg, s).key == a && u.data == map[];
    assert G.PopMany(cfg, s, 2) == G.PopMany(cfg, u, 1) == G.Drain(cfg, u);
    assert |s.data| == 1;
  }

  // ---------- ManagerModel.OverflowAgreesIff ----------

  function EmptyStores(): M.State {
    M.State(Tables(map[], [], [], map[]), map[], P.Index({}, []), 0)
  }

  lemma EmptyAgrees(cfg: M.Config)
    ensures M.Agree(cfg, EmptyStores(), {}) && M.Bounded(EmptyStores().tables)
  {
  }

  /** Maximum 1, clean size 2: the second import leaves row `a` live with the eviction index
      empty, so `a` can never be evicted. */
  lemma StoresDrift(policy: P.Policy, normalize: Vector -> Vector, a: Key, b: Key, d: CacheData)
    requires P.Sound(policy) && a != b
    ensures var cfg := M.Config(1, 2, policy, normalize);
      var first := M.Inserted(EmptyStores(), [a], [d]);
      var second := M.Inserted(first.(index := P.Store(first.index, a, 1.0)), [b], [d]);
      && M.Agree(cfg, second, {b}) && second.tables.questions != map[]
      && var r := M.Overflow(cfg, second);
         r.index.keys == {} && a in LiveIds(r.tables) && !M.Agree(cfg, r, {b})
  {
    hide M.Agree, M.Inserted, P.Sound, LiveIds, Insert, M.Clear;
    var cfg := M.Config(1, 2, policy, normalize);
    EmptyAgrees(cfg);
    var first := M.Inserted(EmptyStores(), [a], [d]);
    M.InsertedAgrees(cfg, EmptyStores(), [a], [d], {});
    assert Members([a]) == {a} && {} + Members([a]) == {a} && {a} - {a} == {};
    M.StoreAgrees(cfg, first, a, 1.0, {a});
    var stored := first.(index := P.Store(first.index, a, 1.0));
    SecondFresh(stored.tables, EmptyStores(), a, b, d);
    M.InsertedAgrees(cfg, stored, [b], [d], {});
    assert Members([b]) == {b} && {} + Members([b]) == {b};
    var second := M.Inserted(stored, [b], [d]);
    AgreeLive(cfg, second, {b});
    RowsExist(second.tables, a);
    assert second.index.keys == {a};
    Drifts(cfg, second, {b}, a);
  }

  lemma SecondFresh(t: Tables, st: M.State, a: Key, b: Key, d: CacheData)
    requires t == M.Inserted(st, [a], [d]).tables && st.tables.questions == map[] && a != b
    ensures M.Fresh(t, [b])
  {
    hide NextRow, DepRows, AnswerRows;
    assert [a][1..] == [] && [d][1..] == [];
    assert t == BatchInsert(Insert(st.tables, a, d), [], []);
  }

  lemma AgreeLive(cfg: M.Config, st: M.State, pending: set<Key>)
    requires M.Agree(cfg, st, pending)
    ensures LiveIds(st.tables) == st.index.keys + pending && st.index.keys !! pending
  {
  }

  lemma RowsExist(t: Tables, a: Key)
    requires a in LiveIds(t)
    ensures t.questions != map[]
  {
  }

  lemma Drifts(cfg: M.Config, st: M.State, pending: set<Key>, a: Key)
    requires P.Sound(cfg.policy) && cfg.cleanSize == 2 && cfg.maxsize == 1
    requires M.Agree(cfg, st, pending) && st.tables.questions != map[] && st.index.keys == {a}
    ensures var r := M.Overflow(cfg, st);
      r.index.keys == {} && a in LiveIds(r.tables) && !M.Agree(cfg, r, pending)
  {
    hide M.Clear, P.Sound, M.VectorsMatch, Owned, P.PopMany, P.Victims;
    M.OverflowAgreesIff(cfg, st, pending);
    P.VictimsLeave(cfg.policy, st.index, 2);
    var ks := P.Victims(cfg.policy, st.index, 2);
    M.AllOfThem(Members(ks), st.index.keys);
    var popped := st.(index := P.PopMany(cfg.policy, st.index, 2));
    M.ClearNothing(popped);
  }

  // ---------- Eviction.OverflowLoopEndsIff, Eviction.DefaultCleanSizeIsZeroIff ----------

  /** Maximum 1 and the clean size it gets by default: the second set loops for ever. */
  lemma SecondSetSpins(a: Key, b: Key)
    requires a != b
    ensures var cfg := Wrapped(1, Eviction.DefaultCleanSize(1));
      && G.Valid(cfg, G.Empty()) && G.Returns(cfg, G.Empty(), a, G.Other)
      && var s := G.SetItem(cfg, G.Empty(), a, G.Other);
         && !G.Returns(cfg, s, b, G.Other)
         && forall times: nat :: Eviction.PopBatchTimes(cfg, s, 0, times).currsize + 1 > cfg.maxsize
  {
    var cfg := Wrapped(1, Eviction.DefaultCleanSize(1));
    Eviction.DefaultCleanSizeIsZeroIff(1);
    G.EmptyValid(cfg);
    var s := FirstSet(cfg, a, G.Other);
    hide G.Valid, G.SetItem;
    forall times: nat
      ensures Eviction.PopBatchTimes(cfg, s, 0, times).currsize + 1 > cfg.maxsize
    {
      Eviction.ZeroBatchSpins(cfg, s, times);
    }
  }

  // ---------- Inflation.PushKeepsFloorIff ----------

  /** A cost of -1 puts the key below the aging value, and evicting it lowers that value. */
  lemma AgingValueFalls(a: Key)
    ensures var cfg, put := G.Config(1, _ => 1, G.Gdsf, G.Plain), G.Set(a, G.Number(-1.0));
      var s := G.Reached(cfg, [put]);
      && a in s.prio && s.prio[a] < s.inflation == 0.0
      && G.Reached(cfg, [put, G.PopOp]).inflation == -1.0
  {
    hide G.Valid, G.SetItem, G.Evict, G.Priority, G.Victim, G.Reached;
    var cfg, put := G.Config(1, _ => 1, G.Gdsf, G.Plain), G.Set(a, G.Number(-1.0));
    G.EmptyValid(cfg);
    var s := FirstSet(cfg, a, G.Number(-1.0));
    PriorityOfMinusOne(cfg);
    assert a in s.data;
    OneStep(cfg, put);
    TwoSteps(cfg, put, G.PopOp);
    Eviction.EvictTakesVictim(cfg, s);
    Eviction.VictimResides(cfg, s);
  }

  lemma PriorityOfMinusOne(cfg: G.Config)
    requires cfg.variant == G.Gdsf && forall v :: cfg.getsizeof(v) == 1
    ensures G.Priority(cfg, 0.0, 1, G.Number(-1.0)) == -1.0
  {
  }

  // ---------- Serving.ServedAgainIff, Sessions.ServedTwiceIff ----------

  function Yes(vector: Vector): CacheData {
    CacheData("q", [], [Answer("yes", 0)], vector, None)
  }

  function Asking(a: Key, b: Key): Serving.Query {
    Serving.Query([a, b], Some("s"), "q", (_, _) => 1.0, 1.0)
  }

  /** Importing both entries, then asking twice. */
  function AskTwice(a: Key, b: Key, vector: Vector): seq<Sessions.Step> {
    var ask := Sessions.Request(Asking(a, b), false, None);
    [Sessions.Bulk([a, b], [Yes(vector), Yes(vector)]), ask, ask]
  }

  /** Two entries with the same answer: the same entry is served twice running to a session
      that never ended. */
  lemma ServedTwiceRunning(policy: P.Policy, normalize: Vector -> Vector, vector: Vector, a: Key, b: Key)
    requires P.Sound(policy) && a != b
    ensures var cfg, st, steps := M.Config(2, 1, policy, normalize), EmptyStores(), AskTwice(a, b, vector);
      && Sessions.Ready(cfg, st) && Sessions.AllPossible(cfg, st, steps)
      && Sessions.Serves(Sessions.Before(cfg, st, steps, 1).tables, steps[1], "s", a)
      && Sessions.Serves(Sessions.Before(cfg, st, steps, 2).tables, steps[2], "s", a)
  {
    hide Sessions.Ready, LiveIds, Sessions.Play, Serving.HasAnswers, Serving.Answer, Serving.Shared,
         Sessions.AllPossible, Sessions.Before, ReadsYes, Sessions.Possible, Sessions.Serves, M.Agree, EmptyStores;
    var cfg, st, steps := M.Config(2, 1, policy, normalize), EmptyStores(), AskTwice(a, b, vector);
    BulkPossible(cfg, a, b, vector);
    var u := Sessions.Play(cfg, st, steps[0]);
    BothLive(cfg, st, a, b, vector);
    UReady(cfg, u);
    BothPass(u.tables, a, b, vector);
    FirstServed(u.tables, a, b);
    Sessions.ServedTwiceIff(cfg, u, Asking(a, b), None, None, "s", a);
    AskPossible(cfg, u, a, b);
    AskPossible(cfg, Sessions.Play(cfg, u, steps[1]), a, b);
    Unfolds(cfg, st, steps);
  }

  lemma FirstServed(t: Tables, a: Key, b: Key)
    requires Serving.HasAnswers(t) && Serving.Answer(t, Asking(a, b)) == Serving.Served("yes", a)
    ensures Sessions.Serves(t, Sessions.Request(Asking(a, b), false, None), "s", a)
  {
    hide Serving.HasAnswers, Serving.Answer;
  }

  lemma UReady(cfg: M.Config, u: M.State)
    requires Sessions.Ready(cfg, u)
    ensures Serving.HasAnswers(u.tables)
  {
  }

  lemma BulkPossible(cfg: M.Config, a: Key, b: Key, vector: Vector)
    requires M.Proper(cfg) && a != b
    ensures Sessions.Ready(cfg, EmptyStores())
    ensures Sessions.Possible(EmptyStores().tables, Sessions.Bulk([a, b], [Yes(vector), Yes(vector)]))
  {
    EmptyAgrees(cfg);
  }

  lemma AskPossible(cfg: M.Config, st: M.State, a: Key, b: Key)
    requires Sessions.Ready(cfg, st) && a != b
    ensures Sessions.Possible(st.tables, Sessions.Request(Asking(a, b), false, None))
  {
    hide M.Agree, M.Bounded, M.Proper, Serving.HasAnswers, Serving.Answer;
  }

  lemma Unfolds(cfg: M.Config, st: M.State, steps: seq<Sessions.Step>)
    requires Sessions.Ready(cfg, st) && |steps| == 3 && Sessions.Possible(st.tables, steps[0])
    requires var u := Sessions.Play(cfg, st, steps[0]);
      && Sessions.Possible(u.tables, steps[1])
      && Sessions.Possible(Sessions.Play(cfg, u, steps[1]).tables, steps[2])
    ensures Sessions.AllPossible(cfg, st, steps)
    ensures var u := Sessions.Play(cfg, st, steps[0]);
      Sessions.Before(cfg, st, steps, 1) == u && Sessions.Before(cfg, st, steps, 2) == Sessions.Play(cfg, u, steps[1])
  {
    hide Sessions.Ready, Sessions.Possible, Sessions.Play;
    var u := Sessions.Play(cfg, st, steps[0]);
    var v := Sessions.Play(cfg, u, steps[1]);
    assert steps[1..][1..][1..] == [];
    assert Sessions.AllPossible(cfg, Sessions.Play(cfg, v, steps[2]), []);
    assert steps[1..][1..][0] == steps[2];
    assert Sessions.AllPossible(cfg, v, steps[1..][1..]);
    assert Sessions.AllPossible(cfg, u, steps[1..]);
    assert Sessions.Before(cfg, u, steps[1..], 1) == Sessions.Before(cfg, v, steps[1..][1..], 0);
  }

  /** An import that fits leaves both rows live, as imported. */
  lemma BothLive(cfg: M.Config, st: M.State, a: Key, b: Key, vector: Vector)
    requires Sessions.Ready(cfg, st) && st == EmptyStores() && cfg.maxsize == 2 && a != b
    requires Sessions.Possible(st.tables, Sessions.Bulk([a, b], [Yes(vector), Yes(vector)]))
    ensures var t := Sessions.Play(cfg, st, Sessions.Bulk([a, b], [Yes(vector), Yes(vector)])).tables;
      a in LiveIds(t) && ReadsYes(t, a, vector) && b in LiveIds(t) && ReadsYes(t, b, vector)
  {
    var ids, datas := [a, b], [Yes(vector), Yes(vector)];
    var costs := Sessions.DM.Costs(datas);
    var ds := M.Normalized(cfg, datas);
    hide M.Agree, M.Proper, M.Bounded, LiveIds, GetData, Sessions.DM.Costs, M.Read;
    Sessions.DoingsAdmissible(cfg, st, Sessions.Bulk(ids, datas));
    Serving.OneRequest(cfg, st, M.Save(ids, datas, costs));
    M.InsertedReady(cfg, st, ids, ds);
    M.InsertedReads(cfg, st, ids, ds, {});
    M.InsertedIndex(st, ids, ds);
    var news := ManagerPuts.PutAllTells(cfg, M.Inserted(st, ids, ds), ids, costs);
    assert ids[0] == a && ids[1] == b;
    assert ds[0] == ds[1] == Yes(vector).(embedding := cfg.normalize(vector));
  }

  ghost predicate ReadsYes(t: Tables, k: Key, vector: Vector) {
    exists e: Vector :: GetData(t, k) == M.Read(k, Yes(vector).(embedding := e))
  }

  lemma OnePasses(t: Tables, a: Key, b: Key, k: Key, vector: Vector)
    requires Serving.HasAnswers(t) && k in LiveIds(t) && ReadsYes(t, k, vector)
    ensures Serving.Passes(t, Asking(a, b), k)
    ensures Serving.AsCandidate(t, Asking(a, b), k) == Ranking.Candidate(1.0, "yes", k)
  {
    hide Serving.HasAnswers, LiveIds;
    var e: Vector :| GetData(t, k) == M.Read(k, Yes(vector).(embedding := e));
    SessionsRead(t, k);
  }

  lemma SessionsRead(t: Tables, k: Key)
    ensures GetData(t, k).Some? ==> GetData(t, k).value.sessions == SessionsOf(t, k)
  {
  }

  lemma BothPass(t: Tables, a: Key, b: Key, vector: Vector)
    requires Serving.HasAnswers(t) && a != b
    requires a in LiveIds(t) && ReadsYes(t, a, vector) && b in LiveIds(t) && ReadsYes(t, b, vector)
    ensures var q := Asking(a, b);
      Distinct(q.search) && Serving.Answer(t, q) == Serving.Served("yes", a) && Serving.Shared(t, q)
  {
    hide Serving.Passes, Serving.AsCandidate, Serving.HasAnswers, Serving.Answer, LiveIds, GetData, ReadsYes;
    OnePasses(t, a, b, a, vector);
    OnePasses(t, a, b, b, vector);
    BothCandidates(t, a, b);
    AnswerOfTwo(t, a, b);
    assert b in Asking(a, b).search;
  }

  lemma BothCandidates(t: Tables, a: Key, b: Key)
    requires Serving.HasAnswers(t)
    requires forall k :: k == a || k == b ==> Serving.Passes(t, Asking(a, b), k)
    requires forall k :: k == a || k == b ==>
      Serving.AsCandidate(t, Asking(a, b), k) == Ranking.Candidate(1.0, "yes", k)
    ensures Serving.Candidates(t, Asking(a, b), [a, b])
         == [Ranking.Candidate(1.0, "yes", a), Ranking.Candidate(1.0, "yes", b)]
  {
    hide Serving.Passes, Serving.AsCandidate, Serving.HasAnswers;
    var q := Asking(a, b);
    assert [a, b][..1] == [a] && [a][..0] == [];
    assert Serving.Candidates(t, q, []) == [];
    assert Serving.Candidates(t, q, [a]) == [Serving.AsCandidate(t, q, a)];
    assert Serving.Candidates(t, q, [a, b]) == [Serving.AsCandidate(t, q, a)] + [Serving.AsCandidate(t, q, b)];
  }

  lemma AnswerOfTwo(t: Tables, a: Key, b: Key)
    requires Serving.HasAnswers(t)
    requires Serving.Candidates(t, Asking(a, b), [a, b])
          == [Ranking.Candidate(1.0, "yes", a), Ranking.Candidate(1.0, "yes", b)]
    ensures Serving.Answer(t, Asking(a, b)) == Serving.Served("yes", a)
  {
    hide Serving.HasAnswers, Serving.Candidates, Ranking.SortDown;
    var cs := [Ranking.Candidate(1.0, "yes", a), Ranking.Candidate(1.0, "yes", b)];
    assert Ranking.Descending(cs);
    Ranking.SortingTwice(cs);
  }

  // ---------- SequenceMatch.DeclaredRangeIff ----------

  /** A single weight of 2 scores 8 where the declared range ends at 4. */
  lemma ScoreOutsideRange()
    ensures SequenceMatch.Evaluate([2.0], [[1.0]], [[1.0]]) == SequenceMatch.Value(8.0)
  {
    var one := [[1.0]];
    SequenceMatch.SelfDistance([1.0]);
    assert SequenceMatch.Reversed(one) == one && SequenceMatch.Reversed([2.0]) == [2.0];
    assert SequenceMatch.Weighted(one, one, [2.0], 1) == (4.0 - 0.0) * 2.0;
  }

  // ---------- TemplateEndings.RoundTripIff, TemplateEndings.IndexErrorIff ----------

  /** "tell me {x} please" raises IndexError whatever the value. */
  lemma TellMePlease(v: string)
    ensures var segments := [TemplateValues.Segment("tell me ", Some("x")), TemplateValues.Segment(" please", None)];
      TemplateValues.Extract("tell me " + v + " please", TemplateValues.Literals(segments),
                             TemplateValues.FieldNames(segments), 0, 0, map[]) == TemplateValues.IndexError
  {
    var segments := [TemplateValues.Segment("tell me ", Some("x")), TemplateValues.Segment(" please", None)];
    var lits, names := TemplateValues.Literals(segments), TemplateValues.FieldNames(segments);
    assert segments[..1] == [segments[0]] && segments[..1][..0] == [];
    assert lits == ["tell me ", " please"] && names == ["x"];
    assert TemplateEndings.Padded(lits, [v]) == [v, ""];
    var text := TemplateValues.Format(lits, [v, ""], 2);
    assert TemplateValues.Format(lits, [v, ""], 0) == "";
    assert TemplateValues.Format(lits, [v, ""], 1) == "tell me " + v;
    assert text == "tell me " + v + " please";
    TemplateEndings.LiteralEndedRaises(lits, names, [v]);
  }

  /** "{x} please" with an empty value yields no field at all. */
  lemma EmptyBeforePlease()
    ensures TemplateValues.Extract(" please", ["", " please"], ["x"], 0, 0, map[]) == TemplateValues.Values(map[])
  {
    var text := " please";
    TemplateValues.FindIsFirst(text, "", 0);
    TemplateValues.FindIsFirst(text, text, 1);
    var end := TemplateValues.Find(text, text, 1);
    assert end == -1;
  }

  /** "{a} {b}" formatted with "x y" and "z" comes back as "x" and "y z". */
  lemma SpaceInValue()
    ensures TemplateValues.Extract("x y z", ["", " "], ["a", "b"], 0, 0, map[])
         == TemplateValues.Values(map["a" := "x", "b" := "y z"])
  {
    hide TemplateValues.Find, TemplateValues.Slice, TemplateValues.Extract;
    var text, lits, names, acc := "x y z", ["", " "], ["a", "b"], map["a" := "x"];
    Pieces(text);
    TemplateEndings.Round(text, lits, names, 0, 0, map[]);
    TemplateEndings.Round(text, lits, names, 1, 1, acc);
    TemplateValues.ExtractDone(text, lits, names, 5, acc["b" := "y z"]);
  }

  lemma Pieces(text: string)
    requires text == "x y z"
    ensures TemplateValues.Find(text, "", 0) == 0 && TemplateValues.Find(text, " ", 1) == 1
    ensures TemplateValues.Slice(text, 0, 1) == "x" && TemplateValues.Slice(text, 2, 5) == "y z"
  {
    assert TemplateValues.MatchesAt(text, "", 0) && TemplateValues.MatchesAt(text, " ", 1);
    assert text[0..1] == ['x'] && text[2..5] == ['y', ' ', 'z'];
  }
}
