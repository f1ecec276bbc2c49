/** Whole requests against one SSDataManager (ask, on a miss fetch from below and save, bulk
    imports, dropped sessions), and session isolation over every run of them. */
module Sessions {
  import opened Basics
  import opened SqlStorage
  import opened Ranking
  import opened Serving
  import M = ManagerModel
  import DM = DataManager

  /** What the next cache or the language model returns on a miss, and the id the database
      gives the entry it is saved under. */
  datatype Fetched = Fetched(id: Key, question: string, deps: seq<Dep>, answers: seq<Answer>, embedding: Vector)

  /** `skip` is cache_skip; nothing is fetched when only searching or when the reply from
      below is falsy. */
  datatype Step =
    | Request(q: Query, skip: bool, fetched: Option<Fetched>)
    | Bulk(ids: seq<Key>, datas: seq<CacheData>)
    | End(session: Name)

  function ReplyTo(t: Tables, q: Query, skip: bool): Reply
    requires HasAnswers(t)
  {
    if skip then Miss else Serving.Answer(t, q)
  }

  /** The entry is saved with the session of the request. */
  function DataOf(q: Query, f: Fetched): CacheData {
    CacheData(f.question, f.deps, f.answers, f.embedding, q.session)
  }

  function SaveOne(q: Query, f: Fetched): M.Request {
    M.Save([f.id], [DataOf(q, f)], DM.Costs([DataOf(q, f)]))
  }

  /** What a step does to the stores. */
  function Doings(t: Tables, step: Step): seq<M.Request>
    requires HasAnswers(t)
  {
    match step
    case Request(q, skip, f) =>
      if ReplyTo(t, q, skip).Served? then Effects(t, q) else if f.Some? then [SaveOne(q, f.value)] else []
    case Bulk(ids, datas) => [M.Save(ids, datas, DM.Costs(datas))]
    case End(session) => [M.Leave(session)]
  }

  // ---------- what every run keeps ----------

  ghost predicate Ready(cfg: M.Config, st: M.State) {
    M.Proper(cfg) && M.Agree(cfg, st, {}) && M.Bounded(st.tables) && HasAnswers(st.tables)
  }

  /** The vector search lists an id once, new ids are fresh, and entries come with answers. */
  predicate Possible(t: Tables, step: Step)
    requires HasAnswers(t)
  {
    match step
    case Request(q, skip, f) =>
      && Distinct(q.search)
      && (ReplyTo(t, q, skip).Miss? && f.Some? ==> f.value.id !in t.questions && |f.value.answers| > 0)
    case Bulk(ids, datas) =>
      M.Fresh(t, ids) && |ids| == |datas| && forall i :: 0 <= i < |datas| ==> |datas[i].answers| > 0
    case End(_) => true
  }

  lemma DoingsAdmissible(cfg: M.Config, st: M.State, step: Step)
    requires Ready(cfg, st) && Possible(st.tables, step)
    ensures M.AllAdmissible(cfg, st, Doings(st.tables, step))
    ensures forall r :: r in Doings(st.tables, step) ==> Answered(r)
  {
    hide M.Agree, M.Proper, M.Bounded, HasAnswers, Serving.Answer, LiveIds, Candidates, M.Serve;
    match step
    case Request(q, skip, f) =>
      if ReplyTo(st.tables, q, skip).Served? {
        EffectsOnTables(cfg, st, q);
      } else if f.Some? {
        OneRequest(cfg, st, SaveOne(q, f.value));
      }
    case Bulk(ids, datas) =>
      OneRequest(cfg, st, M.Save(ids, datas, DM.Costs(datas)));
    case End(session) =>
      OneRequest(cfg, st, M.Leave(session));
  }

  ghost function Play(cfg: M.Config, st: M.State, step: Step): (r: M.State)
    requires Ready(cfg, st) && Possible(st.tables, step)
    ensures Ready(cfg, r)
  {
    DoingsAdmissible(cfg, st, step);
    RunHasAnswers(cfg, st, Doings(st.tables, step));
    M.Run(cfg, st, Doings(st.tables, step))
  }

  ghost predicate AllPossible(cfg: M.Config, st: M.State, steps: seq<Step>)
    requires Ready(cfg, st)
    decreases |steps|
  {
    |steps| > 0 ==> Possible(st.tables, steps[0]) && AllPossible(cfg, Play(cfg, st, steps[0]), steps[1..])
  }

  /** The state before step `i`. */
  ghost function Before(cfg: M.Config, st: M.State, steps: seq<Step>, i: nat): (r: M.State)
    requires Ready(cfg, st) && AllPossible(cfg, st, steps) && i <= |steps|
    ensures Ready(cfg, r)
    decreases i
  {
    if i == 0 then st else Before(cfg, Play(cfg, st, steps[0]), steps[1..], i - 1)
  }

  lemma {:induction false} StepPossible(cfg: M.Config, st: M.State, steps: seq<Step>, i: nat)
    requires Ready(cfg, st) && AllPossible(cfg, st, steps) && i < |steps|
    ensures Possible(Before(cfg, st, steps, i).tables, steps[i])
    decreases i
  {
    hide Ready, Possible, Play;
    if i > 0 {
      StepPossible(cfg, Play(cfg, st, steps[0]), steps[1..], i - 1);
    }
  }

  // ---------- who gets to know what ----------

  /** The step serves entry `id` to the session. */
  predicate Serves(t: Tables, step: Step, session: Name, id: Key)
    requires HasAnswers(t)
  {
    && step.Request? && step.q.session == Some(session)
    && ReplyTo(t, step.q, step.skip).Served? && ReplyTo(t, step.q, step.skip).id == id
  }

  /** The step hands out these ids to new entries. */
  function HandsOut(t: Tables, step: Step): set<Key>
    requires HasAnswers(t)
  {
    match step
    case Request(q, skip, f) => if ReplyTo(t, q, skip).Miss? && f.Some? then {f.value.id} else {}
    case Bulk(ids, _) => Members(ids)
    case End(_) => {}
  }

  /** The step saves entry `id` on behalf of the session. */
  predicate Saves(t: Tables, step: Step, session: Name, id: Key)
    requires HasAnswers(t)
  {
    match step
    case Request(q, skip, f) =>
      q.session == Some(session) && ReplyTo(t, q, skip).Miss? && f.Some? && f.value.id == id
    case Bulk(ids, datas) =>
      exists i :: 0 <= i < |ids| && i < |datas| && ids[i] == id && datas[i].session == Some(session)
    case End(_) => false
  }

  /** The session is served `id` with an answer no other passing entry carries, or saves it. */
  predicate Meets(t: Tables, step: Step, session: Name, id: Key)
    requires HasAnswers(t)
  {
    Saves(t, step, session, id) || (Serves(t, step, session, id) && !Shared(t, step.q))
  }

  lemma MeetingGuards(cfg: M.Config, st: M.State, step: Step, session: Name, id: Key)
    requires Ready(cfg, st) && Possible(st.tables, step) && Meets(st.tables, step, session, id)
    ensures Guarded(Play(cfg, st, step).tables, session, id)
  {
    hide M.Agree, M.Proper, M.Bounded, HasAnswers, Serving.Answer, LiveIds, Knows, M.Serve, Effects, Shared, M.Import;
    DoingsAdmissible(cfg, st, step);
    if Saves(st.tables, step, session, id) {
      match step
      case Request(q, skip, f) =>
        SavingGuards(cfg, st, SaveOne(q, f.value), 0, session);
      case Bulk(ids, datas) =>
        var i :| 0 <= i < |ids| && i < |datas| && ids[i] == id && datas[i].session == Some(session);
        SavingGuards(cfg, st, M.Save(ids, datas, DM.Costs(datas)), i, session);
      case End(_) =>
    } else {
      ServedIsKnownIff(cfg, st, step.q, session);
    }
  }

  lemma SavingGuards(cfg: M.Config, st: M.State, r: M.Request, i: nat, session: Name)
    requires Ready(cfg, st) && r.Save? && M.Admissible(st, r)
    requires i < |r.ids| == |r.datas| && r.datas[i].session == Some(session)
    ensures M.AllAdmissible(cfg, st, [r]) && Guarded(M.Run(cfg, st, [r]).tables, session, r.ids[i])
  {
    hide M.Agree, M.Proper, M.Bounded, HasAnswers, LiveIds, Knows, M.Import, M.Fresh;
    OneRequest(cfg, st, r);
    if r.ids[i] in LiveIds(M.Serve(cfg, st, r).tables) {
      SavedIsKnown(cfg, st, r.ids, r.datas, r.costs, i, session);
    }
  }

  lemma DoingsKeep(cfg: M.Config, st: M.State, step: Step, session: Name, id: Key)
    requires Ready(cfg, st) && Possible(st.tables, step)
    requires step != End(session) && id !in HandsOut(st.tables, step)
    ensures forall r :: r in Doings(st.tables, step) ==> Keeps(r, session, id)
  {
    hide M.Agree, M.Proper, M.Bounded, HasAnswers, Serving.Answer, LiveIds, Candidates, Recorded;
  }

  lemma StepKeepsGuard(cfg: M.Config, st: M.State, step: Step, session: Name, id: Key)
    requires Ready(cfg, st) && Possible(st.tables, step) && Guarded(st.tables, session, id)
    requires step != End(session) && id !in HandsOut(st.tables, step)
    ensures Guarded(Play(cfg, st, step).tables, session, id)
  {
    hide M.Agree, M.Proper, M.Bounded, HasAnswers, Possible, Guarded, Keeps, Answered, Doings, HandsOut;
    DoingsAdmissible(cfg, st, step);
    DoingsKeep(cfg, st, step, session, id);
    RunKeepsKnowledge(cfg, st, Doings(st.tables, step), session, id);
  }

  /** From step `from` up to, but not including, step `to` the session is not dropped and
      `id` is not handed out to a new entry. */
  ghost predicate Quiet(cfg: M.Config, st: M.State, steps: seq<Step>, from: nat, to: nat, session: Name, id: Key)
    requires Ready(cfg, st) && AllPossible(cfg, st, steps) && to <= |steps|
  {
    forall m :: from <= m < to ==>
      steps[m] != End(session) && id !in HandsOut(Before(cfg, st, steps, m).tables, steps[m])
  }

  lemma QuietTail(cfg: M.Config, st: M.State, steps: seq<Step>, from: nat, to: nat, session: Name, id: Key)
    requires Ready(cfg, st) && AllPossible(cfg, st, steps) && 0 < to <= |steps|
    requires Quiet(cfg, st, steps, from, to, session, id)
    ensures Quiet(cfg, Play(cfg, st, steps[0]), steps[1..], if from == 0 then 0 else from - 1, to - 1, session, id)
  {
    hide M.Agree, M.Proper, M.Bounded, HasAnswers, Possible, Play, HandsOut;
    forall m | (if from == 0 then 0 else from - 1) <= m < to - 1
      ensures steps[1..][m] != End(session)
      ensures id !in HandsOut(Before(cfg, Play(cfg, st, steps[0]), steps[1..], m).tables, steps[1..][m])
    {
      assert Before(cfg, st, steps, m + 1) == Before(cfg, Play(cfg, st, steps[0]), steps[1..], m);
    }
  }

  lemma {:induction false} GuardLasts(cfg: M.Config, st: M.State, steps: seq<Step>, j: nat, session: Name, id: Key)
    requires Ready(cfg, st) && AllPossible(cfg, st, steps) && j <= |steps|
    requires Guarded(st.tables, session, id) && Quiet(cfg, st, steps, 0, j, session, id)
    ensures Guarded(Before(cfg, st, steps, j).tables, session, id)
    decreases j
  {
    hide Ready, Possible, Play, HandsOut, Guarded;
    if j > 0 {
      assert Before(cfg, st, steps, 0) == st;
      StepKeepsGuard(cfg, st, steps[0], session, id);
      QuietTail(cfg, st, steps, 0, j, session, id);
      GuardLasts(cfg, Play(cfg, st, steps[0]), steps[1..], j - 1, session, id);
    }
  }

  /** Session isolation over runs of whole requests.  Once a session has saved an entry, or
      has been served it with an answer no other passing entry carried, no later step serves
      it that entry, until the session is dropped or the id goes to a new entry. */
  lemma {:induction false} NeverServedTwice(cfg: M.Config, st: M.State, steps: seq<Step>, i: nat, j: nat, session: Name, id: Key)
    requires Ready(cfg, st) && AllPossible(cfg, st, steps) && i < j < |steps|
    requires Meets(Before(cfg, st, steps, i).tables, steps[i], session, id)
    requires Quiet(cfg, st, steps, i + 1, j, session, id)
    ensures !Serves(Before(cfg, st, steps, j).tables, steps[j], session, id)
    decreases i
  {
    hide Ready, Possible, Play, HandsOut, Guarded, Meets, Serves;
    var u := Play(cfg, st, steps[0]);
    QuietTail(cfg, st, steps, i + 1, j, session, id);
    if i > 0 {
      NeverServedTwice(cfg, u, steps[1..], i - 1, j - 1, session, id);
    } else {
      MeetingGuards(cfg, st, steps[0], session, id);
      GuardLasts(cfg, u, steps[1..], j - 1, session, id);
      StepPossible(cfg, st, steps, j);
      GuardedStep(cfg, Before(cfg, st, steps, j), steps[j], session, id);
    }
  }

  lemma GuardedStep(cfg: M.Config, st: M.State, step: Step, session: Name, id: Key)
    requires Ready(cfg, st) && Possible(st.tables, step) && Guarded(st.tables, session, id)
    ensures !Serves(st.tables, step, session, id)
  {
    hide M.Agree, M.Proper, M.Bounded, HasAnswers, Guarded, Serving.Answer;
    if step.Request? && step.q.session == Some(session) {
      GuardedIsNotServed(st.tables, step.q, session, id);
    }
  }

  /** Where the answer is shared, the very next identical request is served the same entry;
      so over runs the condition above cannot be dropped. */
  lemma ServedTwiceIff(cfg: M.Config, st: M.State, q: Query, f: Option<Fetched>, g: Option<Fetched>, session: Name, id: Key)
    requires Ready(cfg, st) && Distinct(q.search)
    requires q.session == Some(session) && Serves(st.tables, Request(q, false, f), session, id)
    ensures Serves(Play(cfg, st, Request(q, false, f)).tables, Request(q, false, g), session, id) <==> Shared(st.tables, q)
  {
    hide M.Agree, M.Proper, M.Bounded, HasAnswers, Serving.Answer, Shared, Effects;
    ServedAgainIff(cfg, st, q, session);
  }

  // ---------- the request on the mutable manager ----------

  /** `adapt` on one cache: ask, and on a miss save what was fetched, with the session. */
  method Adapt(mgr: DM.SSDataManager, q: Query, skip: bool, fetched: Option<Fetched>) returns (reply: Reply)
    requires mgr.Valid() && Ready(mgr.Cfg(), mgr.Abs()) && Possible(mgr.s.Abs(), Request(q, skip, fetched))
    modifies mgr.em, mgr.s, mgr.v, mgr.ix
    ensures mgr.Valid() && reply == ReplyTo(old(mgr.s.Abs()), q, skip)
    ensures mgr.Abs() == Play(mgr.Cfg(), old(mgr.Abs()), Request(q, skip, fetched))
  {
    hide M.Agree, M.Proper, M.Bounded, HasAnswers, Serving.Answer, Effects, M.Fresh, M.Import, M.Serve;
    ghost var st := mgr.Abs();
    DoingsAdmissible(mgr.Cfg(), st, Request(q, skip, fetched));
    reply := Miss;
    if !skip {
      reply := Ask(mgr, q);
      if reply.Served? {
        return;
      }
      MissChangesNothing(mgr.Cfg(), st, q);
    }
    if fetched.Some? {
      var f := fetched.value;
      OneIsFresh(st.tables, f.id);
      SavedOne(mgr.Cfg(), st, q, f);
      var ok := mgr.ImportData([f.question], [f.deps], [f.answers], [f.embedding], [q.session], [f.id]);
      assert DM.Rows([f.question], [f.deps], [f.answers], [f.embedding], [q.session]) == [DataOf(q, f)];
    }
  }

  lemma SavedOne(cfg: M.Config, st: M.State, q: Query, f: Fetched)
    requires M.Proper(cfg) && M.Agree(cfg, st, {}) && M.Fresh(st.tables, [f.id])
    ensures M.AllAdmissible(cfg, st, [SaveOne(q, f)])
    ensures M.Run(cfg, st, [SaveOne(q, f)])
         == M.Import(cfg, st, [f.id], [DataOf(q, f)], DM.Costs([DataOf(q, f)]))
  {
    hide M.Agree, M.Proper, M.Import, M.Fresh;
    OneRequest(cfg, st, SaveOne(q, f));
  }

  lemma OneIsFresh(t: Tables, id: Key)
    requires id !in t.questions
    ensures M.Fresh(t, [id])
  {
  }

  lemma MissChangesNothing(cfg: M.Config, st: M.State, q: Query)
    requires M.Proper(cfg) && M.Agree(cfg, st, {}) && HasAnswers(st.tables) && Serving.Answer(st.tables, q).Miss?
    requires M.AllAdmissible(cfg, st, Effects(st.tables, q))
    ensures M.Run(cfg, st, Effects(st.tables, q)) == st
  {
    hide M.Agree, M.Proper, HasAnswers, M.Serve;
    SortDownFacts(Candidates(st.tables, q, q.search));
    assert Effects(st.tables, q) == [];
  }
}
