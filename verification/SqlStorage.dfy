/** gptcache/manager/scalar_data/sql_storage.py: four tables with soft deletion. */
module SqlStorage {
  import opened Basics

  type Vector(==, !new)

  /** Session names are never empty: an unnamed session gets a fresh UUID. */
  type Name = s: string | s != "" witness "s"

  datatype Answer = Answer(content: string, kind: int)
  datatype Dep = Dep(name: string, data: string, kind: int)
  datatype CacheData = CacheData(question: string, deps: seq<Dep>, answers: seq<Answer>,
                                 embedding: Vector, session: Option<Name>)

  datatype Question = Question(content: string, embedding: Vector, deleted: bool)
  datatype AnswerRow = AnswerRow(owner: Key, answer: Answer)
  datatype DepRow = DepRow(owner: Key, dep: Dep)
  datatype SessionRow = SessionRow(owner: Key, session: Name, question: string)

  /** Question ids are whatever the database hands out; session rows are deleted by row id. */
  datatype Tables = Tables(questions: map<Key, Question>, answers: seq<AnswerRow>, deps: seq<DepRow>,
                           sessions: map<nat, SessionRow>)

  // ---------- queries ----------

  function LiveIds(t: Tables): set<Key> {
    set k | k in t.questions && !t.questions[k].deleted
  }

  function DeadIds(t: Tables): set<Key> {
    set k | k in t.questions && t.questions[k].deleted
  }

  /** Rows whose owner satisfies `wanted`, in table order. */
  function Select<R>(rows: seq<R>, owner: R -> Key, wanted: Key -> bool): seq<R> {
    if |rows| == 0 then []
    else (if wanted(owner(rows[0])) then [rows[0]] else []) + Select(rows[1..], owner, wanted)
  }

  function OwnerOfAnswer(): AnswerRow -> Key {
    (r: AnswerRow) => r.owner
  }

  function OwnerOfDep(): DepRow -> Key {
    (r: DepRow) => r.owner
  }

  function Is(id: Key): Key -> bool {
    k => k == id
  }

  function Outside(ids: set<Key>): Key -> bool {
    k => k !in ids
  }

  function AnswersOf(t: Tables, id: Key): seq<AnswerRow> {
    Select(t.answers, OwnerOfAnswer(), Is(id))
  }

  function DepsOf(t: Tables, id: Key): seq<DepRow> {
    Select(t.deps, OwnerOfDep(), Is(id))
  }

  /** The sessions recorded for a question. */
  function SessionsOf(t: Tables, id: Key): set<Name> {
    set r | r in t.sessions && t.sessions[r].owner == id :: t.sessions[r].session
  }

  /** What `get_data_by_id` returns: soft-deleted questions read as missing. */
  datatype Record = Record(question: string, deps: seq<DepRow>, answers: seq<AnswerRow>, embedding: Vector,
                         sessions: set<Name>)

  function GetData(t: Tables, id: Key): (e: Option<Record>)
    ensures e.Some? <==> id in LiveIds(t)
  {
    if id in t.questions && !t.questions[id].deleted then
      var q := t.questions[id];
      Some(Record(q.content, DepsOf(t, id), AnswersOf(t, id), q.embedding, SessionsOf(t, id)))
    else None
  }

  /** The entry reads as these parts: answers and dependencies in order, and the sessions. */
  predicate ReadsAs(t: Tables, id: Key, question: string, deps: seq<Dep>, answers: seq<Answer>, embedding: Vector,
                    session: Option<Name>) {
    var e := GetData(t, id);
    && e.Some? && e.value.question == question && e.value.embedding == embedding
    && |e.value.answers| == |answers| && (forall j :: 0 <= j < |answers| ==> e.value.answers[j].answer == answers[j])
    && |e.value.deps| == |deps| && (forall j :: 0 <= j < |deps| ==> e.value.deps[j].dep == deps[j])
    && e.value.sessions == if session.Some? then {session.value} else {}
  }

  // ---------- updates ----------

  ghost function Largest(ids: set<nat>): (m: nat)
    ensures forall i :: i in ids ==> i <= m
    ensures if ids == {} then m == 0 else m in ids
  {
    if ids == {} then 0
    else
      var i :| i in ids;
      var rest := Largest(ids - {i});
      assert forall j :: j in ids ==> j == i || j in ids - {i};
      if i > rest then i else rest
  }

  /** SQLite's row id for an inserted row: one more than the largest in use. */
  ghost function NextRow(sessions: map<nat, SessionRow>): (r: nat)
    ensures r !in sessions
  {
    Largest(sessions.Keys) + 1
  }

  function AnswerRows(id: Key, answers: seq<Answer>): (rows: seq<AnswerRow>)
    ensures |rows| == |answers|
  {
    seq(|answers|, i requires 0 <= i < |answers| => AnswerRow(id, answers[i]))
  }

  function DepRows(id: Key, deps: seq<Dep>): (rows: seq<DepRow>)
    ensures |rows| == |deps|
  {
    seq(|deps|, i requires 0 <= i < |deps| => DepRow(id, deps[i]))
  }

  ghost function AddSession(t: Tables, id: Key, session: Name, question: string): Tables {
    t.(sessions := t.sessions[NextRow(t.sessions) := SessionRow(id, session, question)])
  }

  ghost function Insert(t: Tables, id: Key, data: CacheData): Tables {
    var u := t.(questions := t.questions[id := Question(data.question, data.embedding, false)],
                deps := t.deps + DepRows(id, data.deps),
                answers := t.answers + AnswerRows(id, data.answers));
    if data.session.Some? then AddSession(u, id, data.session.value, data.question) else u
  }

  ghost function BatchInsert(t: Tables, ids: seq<Key>, datas: seq<CacheData>): Tables
    requires |ids| == |datas|
    decreases |ids|
  {
    if |ids| == 0 then t else BatchInsert(Insert(t, ids[0], datas[0]), ids[1..], datas[1..])
  }

  function MarkDeleted(t: Tables, ks: set<Key>): Tables {
    t.(questions := map k | k in t.questions ::
         if k in ks then t.questions[k].(deleted := true) else t.questions[k])
  }

  function ClearDeleted(t: Tables): Tables {
    var dead := DeadIds(t);
    Tables(map k | k in t.questions && !t.questions[k].deleted :: t.questions[k],
           Select(t.answers, OwnerOfAnswer(), Outside(dead)),
           Select(t.deps, OwnerOfDep(), Outside(dead)),
           map r | r in t.sessions && t.sessions[r].owner !in dead :: t.sessions[r])
  }

  function DeleteRows(t: Tables, rows: set<nat>): Tables {
    t.(sessions := map r | r in t.sessions && r !in rows :: t.sessions[r])
  }

  /** The row ids of a session. */
  function RowsOf(t: Tables, session: Name): set<nat> {
    set r | r in t.sessions && t.sessions[r].session == session
  }

  /** Session.drop: look the rows up, then delete them by id. */
  function DropSession(t: Tables, session: Name): Tables {
    DeleteRows(t, RowsOf(t, session))
  }

  // ---------- referential integrity ----------

  ghost predicate Owned(t: Tables) {
    && (forall r :: r in t.answers ==> r.owner in t.questions)
    && (forall r :: r in t.deps ==> r.owner in t.questions)
    && (forall r :: r in t.sessions ==> t.sessions[r].owner in t.questions)
  }

  lemma {:induction false} SelectMembers<R>(rows: seq<R>, owner: R -> Key, wanted: Key -> bool)
    ensures forall r :: r in Select(rows, owner, wanted) <==> r in rows && wanted(owner(r))
  {
    if |rows| != 0 {
      SelectMembers(rows[1..], owner, wanted);
      assert rows == [rows[0]] + rows[1..];
    }
  }

  /** Selecting one owner is not disturbed by first dropping rows of others. */
  lemma {:induction false} SelectTwice<R>(rows: seq<R>, owner: R -> Key, kept: Key -> bool, wanted: Key -> bool)
    requires forall k :: wanted(k) ==> kept(k)
    ensures Select(Select(rows, owner, kept), owner, wanted) == Select(rows, owner, wanted)
  {
    if |rows| != 0 {
      SelectTwice(rows[1..], owner, kept, wanted);
      var rest := Select(rows[1..], owner, kept);
      if kept(owner(rows[0])) {
        assert Select(rows, owner, kept) == [rows[0]] + rest;
        assert ([rows[0]] + rest)[1..] == rest;
      } else {
        assert Select(rows, owner, kept) == rest;
      }
    }
  }

  /** The first row alone. */
  function First<R>(rows: seq<R>, owner: R -> Key, wanted: Key -> bool): seq<R>
    requires |rows| > 0
  {
    if wanted(owner(rows[0])) then [rows[0]] else []
  }

  lemma SelectFirst<R>(rows: seq<R>, owner: R -> Key, wanted: Key -> bool)
    ensures |rows| == 0 ==> Select(rows, owner, wanted) == []
    ensures |rows| > 0 ==> Select(rows, owner, wanted) == First(rows, owner, wanted) + Select(rows[1..], owner, wanted)
  {
  }

  lemma {:induction false} SelectAppend<R>(a: seq<R>, b: seq<R>, owner: R -> Key, wanted: Key -> bool)
    ensures Select(a + b, owner, wanted) == Select(a, owner, wanted) + Select(b, owner, wanted)
    decreases |a|
  {
    hide Select;
    SelectFirst(a, owner, wanted);
    if |a| == 0 {
      assert a + b == b;
    } else {
      SelectAppend(a[1..], b, owner, wanted);
      SelectFirst(a + b, owner, wanted);
      assert (a + b)[1..] == a[1..] + b;
      assert (a + b)[0] == a[0];
    }
  }

  lemma {:induction false} SelectAll<R>(rows: seq<R>, owner: R -> Key, wanted: Key -> bool)
    requires forall r :: r in rows ==> wanted(owner(r))
    ensures Select(rows, owner, wanted) == rows
  {
    if |rows| != 0 {
      SelectAll(rows[1..], owner, wanted);
      assert rows == [rows[0]] + rows[1..];
    }
  }

  lemma {:induction false} SelectNone<R>(rows: seq<R>, owner: R -> Key, wanted: Key -> bool)
    requires forall r :: r in rows ==> !wanted(owner(r))
    ensures Select(rows, owner, wanted) == []
  {
    if |rows| != 0 {
      SelectNone(rows[1..], owner, wanted);
    }
  }

  /** A sweep removes exactly the soft-deleted questions and their rows in every table. */
  lemma SweepRemovesTheDead(t: Tables)
    ensures var u := ClearDeleted(t);
      && u.questions.Keys == LiveIds(t) == LiveIds(u) && DeadIds(u) == {}
      && (forall r :: r in u.answers <==> r in t.answers && r.owner !in DeadIds(t))
      && (forall r :: r in u.deps <==> r in t.deps && r.owner !in DeadIds(t))
      && (forall i :: i in u.sessions <==> i in t.sessions && t.sessions[i].owner !in DeadIds(t))
      && (Owned(t) ==> Owned(u))
  {
    var dead := DeadIds(t);
    SelectMembers(t.answers, OwnerOfAnswer(), Outside(dead));
    SelectMembers(t.deps, OwnerOfDep(), Outside(dead));
  }

  /** Live entries read the same before and after a sweep, answers in the same order. */
  lemma SweepKeepsLiveEntries(t: Tables, id: Key)
    requires id in LiveIds(t)
    ensures GetData(ClearDeleted(t), id) == GetData(t, id)
  {
    var u, dead := ClearDeleted(t), DeadIds(t);
    SelectTwice(t.answers, OwnerOfAnswer(), Outside(dead), Is(id));
    SelectTwice(t.deps, OwnerOfDep(), Outside(dead), Is(id));
    assert SessionsOf(u, id) == SessionsOf(t, id) by {
      forall s ensures s in SessionsOf(u, id) <==> s in SessionsOf(t, id) {
        if s in SessionsOf(t, id) {
          var r :| r in t.sessions && t.sessions[r].owner == id && t.sessions[r].session == s;
          assert r in u.sessions && u.sessions[r].owner == id;
        }
      }
    }
  }

  /** A mark hides exactly the marked questions and touches no row of any other table. */
  lemma MarkHides(t: Tables, ks: set<Key>)
    ensures var u := MarkDeleted(t, ks);
      && u.questions.Keys == t.questions.Keys
      && LiveIds(u) == LiveIds(t) - ks && DeadIds(u) == DeadIds(t) + (ks * t.questions.Keys)
      && (Owned(t) ==> Owned(u))
      && (forall id :: id in LiveIds(u) ==> GetData(u, id) == GetData(t, id))
  {
  }

  /** A fresh question is readable as inserted, and no other entry changes. */
  lemma InsertReadsBack(t: Tables, id: Key, data: CacheData)
    requires Owned(t) && id !in t.questions
    ensures var u := Insert(t, id, data);
      && Owned(u) && LiveIds(u) == LiveIds(t) + {id} && DeadIds(u) == DeadIds(t)
      && u.questions.Keys == t.questions.Keys + {id}
      && GetData(u, id) == Some(Record(data.question, DepRows(id, data.deps), AnswerRows(id, data.answers),
                                     data.embedding, if data.session.Some? then {data.session.value} else {}))
      && (forall k :: k in LiveIds(t) ==> GetData(u, k) == GetData(t, k))
  {
    var u := Insert(t, id, data);
    hide AnswersOf, DepsOf, SessionsOf, Owned, DepRows, AnswerRows, NextRow;
    InsertSessions(t, id, data);
    InsertFresh(t, id, data);
    InsertOwned(t, id, data);
    forall k | k in LiveIds(t)
      ensures GetData(u, k) == GetData(t, k)
    {
      InsertBeside(t, id, data, k);
    }
  }

  lemma InsertOwned(t: Tables, id: Key, data: CacheData)
    requires Owned(t)
    ensures Owned(Insert(t, id, data))
  {
  }

  lemma InsertFresh(t: Tables, id: Key, data: CacheData)
    requires Owned(t) && id !in t.questions
    ensures AnswersOf(Insert(t, id, data), id) == AnswerRows(id, data.answers)
    ensures DepsOf(Insert(t, id, data), id) == DepRows(id, data.deps)
  {
    InsertAnswers(t, id, data, id);
    SelectNone(t.answers, OwnerOfAnswer(), Is(id));
    SelectNone(t.deps, OwnerOfDep(), Is(id));
    SelectAll(AnswerRows(id, data.answers), OwnerOfAnswer(), Is(id));
    SelectAll(DepRows(id, data.deps), OwnerOfDep(), Is(id));
  }

  lemma InsertBeside(t: Tables, id: Key, data: CacheData, k: Key)
    requires k != id
    ensures AnswersOf(Insert(t, id, data), k) == AnswersOf(t, k)
    ensures DepsOf(Insert(t, id, data), k) == DepsOf(t, k)
  {
    InsertAnswers(t, id, data, k);
    SelectNone(AnswerRows(id, data.answers), OwnerOfAnswer(), Is(k));
    SelectNone(DepRows(id, data.deps), OwnerOfDep(), Is(k));
  }

  lemma InsertAnswers(t: Tables, id: Key, data: CacheData, k: Key)
    ensures AnswersOf(Insert(t, id, data), k)
         == AnswersOf(t, k) + Select(AnswerRows(id, data.answers), OwnerOfAnswer(), Is(k))
    ensures DepsOf(Insert(t, id, data), k)
         == DepsOf(t, k) + Select(DepRows(id, data.deps), OwnerOfDep(), Is(k))
  {
    SelectAppend(t.answers, AnswerRows(id, data.answers), OwnerOfAnswer(), Is(k));
    SelectAppend(t.deps, DepRows(id, data.deps), OwnerOfDep(), Is(k));
  }

  lemma SessionsAfterAdd(t: Tables, id: Key, session: Name, question: string, k: Key)
    ensures SessionsOf(AddSession(t, id, session, question), k)
         == SessionsOf(t, k) + (if k == id then {session} else {})
  {
    var u := AddSession(t, id, session, question);
    var row := NextRow(t.sessions);
    forall s ensures s in SessionsOf(u, k) <==> s in SessionsOf(t, k) || (k == id && s == session) {
      if s in SessionsOf(t, k) {
        var r :| r in t.sessions && t.sessions[r].owner == k && t.sessions[r].session == s;
        assert r in u.sessions && u.sessions[r] == t.sessions[r];
      }
      if k == id && s == session {
        assert row in u.sessions && u.sessions[row].owner == k && u.sessions[row].session == s;
      }
    }
  }

  /** The tables differ by one new session row. */
  ghost predicate RowAdded(t: Tables, u: Tables, row: SessionRow) {
    exists r: nat :: r !in t.sessions && u == t.(sessions := t.sessions[r := row])
  }

  lemma AddSessionAddsRow(t: Tables, id: Key, session: Name, question: string)
    ensures RowAdded(t, AddSession(t, id, session, question), SessionRow(id, session, question))
  {
    assert NextRow(t.sessions) !in t.sessions;
  }

  /** An entry saved for a session adds one row, with the entry's own question. */
  lemma InsertAddsRow(t: Tables, id: Key, data: CacheData)
    ensures var u := Insert(t, id, data);
      if data.session.None? then u.sessions == t.sessions
      else RowAdded(t.(questions := u.questions, answers := u.answers, deps := u.deps), u,
                    SessionRow(id, data.session.value, data.question))
  {
    hide DepRows, AnswerRows;
    if data.session.Some? {
      assert NextRow(t.sessions) !in t.sessions;
    }
  }

  lemma InsertSessions(t: Tables, id: Key, data: CacheData)
    requires Owned(t) && id !in t.questions
    ensures SessionsOf(Insert(t, id, data), id) == if data.session.Some? then {data.session.value} else {}
    ensures forall k :: k != id ==> SessionsOf(Insert(t, id, data), k) == SessionsOf(t, k)
  {
    var u := t.(questions := t.questions[id := Question(data.question, data.embedding, false)],
                deps := t.deps + DepRows(id, data.deps),
                answers := t.answers + AnswerRows(id, data.answers));
    assert SessionsOf(t, id) == {};
    if data.session.Some? {
      forall k
        ensures SessionsOf(Insert(t, id, data), k)
             == SessionsOf(t, k) + (if k == id then {data.session.value} else {})
      {
        SessionsAfterAdd(u, id, data.session.value, data.question, k);
        assert SessionsOf(u, k) == SessionsOf(t, k);
      }
    }
  }

  /** Dropping a session removes exactly its rows: every other session keeps every entry
      it had, and the dropped one keeps none. */
  lemma DropForgetsExactly(t: Tables, session: Name)
    ensures var u := DropSession(t, session);
      && u.questions == t.questions && u.answers == t.answers && u.deps == t.deps
      && (forall i :: i in u.sessions <==> i in t.sessions && t.sessions[i].session != session)
      && (forall i :: i in u.sessions ==> u.sessions[i] == t.sessions[i])
      && (forall id :: SessionsOf(u, id) == SessionsOf(t, id) - {session})
  {
    var u := DropSession(t, session);
    forall id
      ensures SessionsOf(u, id) == SessionsOf(t, id) - {session}
    {
      forall s | s in SessionsOf(t, id) && s != session
        ensures s in SessionsOf(u, id)
      {
        var r :| r in t.sessions && t.sessions[r].owner == id && t.sessions[r].session == s;
        assert r in u.sessions;
      }
    }
  }
}
