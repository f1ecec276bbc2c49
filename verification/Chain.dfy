/** A chain of exact-match caches in front of an LLM (adapter.py over MapDataManager). */
module Chain {
  import opened Basics
  import P = PolicyIndex
  import R = Ranking

  type Request(!new)
  type Response(!new)
  type Text(!new)

  /** `llm` yields None for a falsy result.  `encode` is what the update callback stores,
      `decode` what a hit is converted back into. */
  datatype Env = Env(llm: Request -> Option<Response>, encode: Response -> Text, decode: Text -> Response)

  /** One cache: which requests it is enabled for, its key (preprocessing and embedding),
      its threshold, and the container behind its MapDataManager. */
  datatype Level = Level(enabled: Request -> bool, key: Request -> Key, similarity: real, maxsize: nat, policy: P.Policy)

  datatype MapEntry = MapEntry(question: Key, answer: Text)

  datatype Store = Store(data: map<Key, MapEntry>, accesses: seq<P.Access>)

  // ---------- MapDataManager ----------

  /** Reading a key counts as an access for the container. */
  function Touch(s: Store, k: Key): Store {
    if k in s.data then s.(accesses := s.accesses + [P.Touched(k)]) else s
  }

  function EvictOne(l: Level, s: Store): Store {
    var v := l.policy(s.accesses, s.data.Keys);
    Store(s.data - {v}, s.accesses + [P.Popped(v)])
  }

  /** `self.data[key] = ...` on a bounded container; with no room at all it raises, and the
      adapter only logs that. */
  function Save(l: Level, s: Store, k: Key, e: MapEntry): Store {
    if l.maxsize == 0 then s
    else
      var room := if k !in s.data && |s.data| + 1 > l.maxsize then EvictOne(l, s) else s;
      Store(room.data[k := e], room.accesses + [P.Stored(k, 1.0)])
  }

  ghost predicate Fits(l: Level, s: Store) {
    P.Sound(l.policy) && |s.data| <= l.maxsize
  }

  // ---------- adapt ----------

  /** ExactMatchEvaluation, whose range is 0 to 1. */
  function ExactMatch(question: Key, cached: Key): (r: real) {
    if cached == question then 1.0 else 0.0
  }

  predicate IsHit(l: Level, s: Store, req: Request, factor: real) {
    var k := l.key(req);
    k in s.data && R.RankThreshold(0.0, 1.0, l.similarity, factor) <= ExactMatch(k, s.data[k].question)
  }

  /** The store after a request has looked, or not, at its level. */
  function Looked(l: Level, s: Store, req: Request, skip: bool): Store {
    if l.enabled(req) && !skip then Touch(s, l.key(req)) else s
  }

  /** ... and after the reply from below has been written back, or not. */
  function Written(env: Env, l: Level, s: Store, req: Request, reply: Option<Response>): Store {
    if reply.Some? && l.enabled(req) then Save(l, s, l.key(req), MapEntry(l.key(req), env.encode(reply.value))) else s
  }

  datatype Outcome = Outcome(reply: Option<Response>, stores: seq<Store>, calls: nat)

  /** `adapt` on the chain: look up, fall through to the next cache or the LLM, write back. */
  function Adapt(env: Env, ls: seq<Level>, ss: seq<Store>, req: Request, skip: bool, searchOnly: bool, factor: real): (o: Outcome)
    requires |ls| == |ss| > 0
    ensures |o.stores| == |ss|
    decreases |ls|
  {
    var l, s, k := ls[0], ss[0], ls[0].key(req);
    var s1 := Looked(l, s, req, skip);
    if l.enabled(req) && !skip && IsHit(l, s, req, factor) then
      Outcome(Some(env.decode(s.data[k].answer)), [s1] + ss[1..], 0)
    else
      var below := if |ls| > 1 then Adapt(env, ls[1..], ss[1..], req, skip, searchOnly, factor)
                   else if searchOnly then Outcome(None, [], 0)
                   else Outcome(env.llm(req), [], 1);
      Outcome(below.reply, [Written(env, l, s1, req, below.reply)] + below.stores, below.calls)
  }

  // ---------- transparency ----------

  ghost predicate Lossless(env: Env) {
    forall x :: env.decode(env.encode(x)) == x
  }

  /** The LLM's answer depends on the request only through this level's key. */
  ghost predicate Determined(env: Env, l: Level) {
    forall a, b :: l.key(a) == l.key(b) ==> env.llm(a) == env.llm(b)
  }

  /** Whatever is stored under a key is what the LLM says for it. */
  ghost predicate Truthful(env: Env, l: Level, s: Store) {
    && (forall k :: k in s.data ==> s.data[k].question == k)
    && (forall r :: l.key(r) in s.data ==> env.llm(r) == Some(env.decode(s.data[l.key(r)].answer)))
  }

  ghost predicate AllTruthful(env: Env, ls: seq<Level>, ss: seq<Store>)
    requires |ls| == |ss|
  {
    && Lossless(env)
    && forall i :: 0 <= i < |ls| ==> Determined(env, ls[i]) && Fits(ls[i], ss[i]) && Truthful(env, ls[i], ss[i])
  }

  /** A truthful entry always clears the threshold, whatever the similarity and factor. */
  lemma HitIffStored(env: Env, l: Level, s: Store, req: Request, factor: real)
    requires Truthful(env, l, s)
    ensures IsHit(l, s, req, factor) <==> l.key(req) in s.data
  {
  }

  /** Losing entries, by any policy, never makes a store untruthful. */
  lemma SubsetTruthful(env: Env, l: Level, s: Store, t: Store)
    requires Truthful(env, l, s) && forall k :: k in t.data ==> k in s.data && t.data[k] == s.data[k]
    ensures Truthful(env, l, t)
  {
  }

  lemma SaveTruthful(env: Env, l: Level, s: Store, req: Request, x: Response)
    requires Fits(l, s) && Truthful(env, l, s) && Determined(env, l) && Lossless(env) && env.llm(req) == Some(x)
    ensures var t := Save(l, s, l.key(req), MapEntry(l.key(req), env.encode(x)));
      && Fits(l, t) && Truthful(env, l, t)
      && (l.maxsize > 0 ==> l.key(req) in t.data && env.decode(t.data[l.key(req)].answer) == x)
  {
    var k := l.key(req);
    if l.maxsize > 0 {
      var room := if k !in s.data && |s.data| + 1 > l.maxsize then EvictOne(l, s) else s;
      RoomMade(l, s, k);
      SubsetTruthful(env, l, s, room);
      var t := Save(l, s, k, MapEntry(k, env.encode(x)));
      assert t.data.Keys == room.data.Keys + {k};
      forall r | l.key(r) in t.data
        ensures env.llm(r) == Some(env.decode(t.data[l.key(r)].answer))
      {
        if l.key(r) == k {
          assert env.llm(r) == env.llm(req);
        } else {
          assert l.key(r) in room.data;
        }
      }
    }
  }

  lemma RoomMade(l: Level, s: Store, k: Key)
    requires Fits(l, s) && l.maxsize > 0
    ensures var room := if k !in s.data && |s.data| + 1 > l.maxsize then EvictOne(l, s) else s;
      && (forall j :: j in room.data ==> j in s.data && room.data[j] == s.data[j])
      && (k in room.data || |room.data| + 1 <= l.maxsize) && |room.data| <= l.maxsize
  {
    if k !in s.data && |s.data| + 1 > l.maxsize {
      var v := l.policy(s.accesses, s.data.Keys);
      assert |s.data.Keys| > 0;
      assert v in s.data.Keys;
      assert (s.data - {v}).Keys == s.data.Keys - {v};
    }
  }

  /** Level `i` is looked at and has the key. */
  predicate Holds(ls: seq<Level>, ss: seq<Store>, req: Request, skip: bool, i: nat)
    requires |ls| == |ss| && i < |ls|
  {
    ls[i].enabled(req) && !skip && ls[i].key(req) in ss[i].data
  }

  predicate SomeHolds(ls: seq<Level>, ss: seq<Store>, req: Request, skip: bool)
    requires |ls| == |ss|
  {
    exists i :: 0 <= i < |ls| && Holds(ls, ss, req, skip, i)
  }

  lemma SomeHoldsBelow(ls: seq<Level>, ss: seq<Store>, req: Request, skip: bool)
    requires |ls| == |ss| > 0
    ensures SomeHolds(ls, ss, req, skip) <==>
      Holds(ls, ss, req, skip, 0) || SomeHolds(ls[1..], ss[1..], req, skip)
  {
    if SomeHolds(ls[1..], ss[1..], req, skip) {
      var i :| 0 <= i < |ls[1..]| && Holds(ls[1..], ss[1..], req, skip, i);
      assert Holds(ls, ss, req, skip, i + 1);
    }
    if SomeHolds(ls, ss, req, skip) && !Holds(ls, ss, req, skip, 0) {
      var i :| 0 <= i < |ls| && Holds(ls, ss, req, skip, i);
      assert Holds(ls[1..], ss[1..], req, skip, i - 1);
    }
  }

  lemma TailTruthful(env: Env, ls: seq<Level>, ss: seq<Store>)
    requires |ls| == |ss| > 0
    ensures AllTruthful(env, ls, ss) <==>
      Lossless(env) && Determined(env, ls[0]) && Fits(ls[0], ss[0]) && Truthful(env, ls[0], ss[0])
      && AllTruthful(env, ls[1..], ss[1..])
  {
    hide Lossless, Determined, Fits, Truthful;
    if AllTruthful(env, ls[1..], ss[1..]) {
      assert forall i :: 1 <= i < |ls| ==> ls[i] == ls[1..][i - 1] && ss[i] == ss[1..][i - 1];
    }
  }

  /** Transparency of one request.  If it answers, it answers what the LLM would; when the
      LLM may be called it always answers that.  The LLM is called at most once, and exactly
      when no enabled level holds the key.  The chain stays truthful. */
  lemma {:induction false} AdaptIsTransparent(env: Env, ls: seq<Level>, ss: seq<Store>, req: Request, skip: bool, searchOnly: bool, factor: real)
    requires |ls| == |ss| > 0 && AllTruthful(env, ls, ss)
    ensures var o := Adapt(env, ls, ss, req, skip, searchOnly, factor);
      && AllTruthful(env, ls, o.stores)
      && (!searchOnly ==> o.reply == env.llm(req))
      && (searchOnly ==> o.reply == if SomeHolds(ls, ss, req, skip) then env.llm(req) else None)
      && o.calls == (if searchOnly || SomeHolds(ls, ss, req, skip) then 0 else 1)
      && (SomeHolds(ls, ss, req, skip) ==> env.llm(req).Some?)
    decreases |ls|
  {
    hide Truthful, Determined, Lossless, Fits, Save, IsHit, AllTruthful, SomeHolds;
    var l, s, k := ls[0], ss[0], ls[0].key(req);
    var looks := l.enabled(req) && !skip;
    var s1 := if looks then Touch(s, k) else s;
    TailTruthful(env, ls, ss);
    SomeHoldsBelow(ls, ss, req, skip);
    HitIffStored(env, l, s, req, factor);
    TouchTruthful(env, l, s, k);
    var o := Adapt(env, ls, ss, req, skip, searchOnly, factor);
    TailTruthful(env, ls, o.stores);
    if looks && IsHit(l, s, req, factor) {
      StoredAnswer(env, l, s, req);
      assert o.stores[1..] == ss[1..];
    } else {
      if |ls| > 1 {
        AdaptIsTransparent(env, ls[1..], ss[1..], req, skip, searchOnly, factor);
      } else {
        NoLevels(env, ls[1..], ss[1..], req, skip);
      }
      if o.reply.Some? && l.enabled(req) {
        SaveTruthful(env, l, s1, req, o.reply.value);
      }
      var below := if |ls| > 1 then Adapt(env, ls[1..], ss[1..], req, skip, searchOnly, factor).stores else [];
      assert o.stores[1..] == below;
    }
  }

  lemma NoLevels(env: Env, ls: seq<Level>, ss: seq<Store>, req: Request, skip: bool)
    requires |ls| == |ss| == 0
    ensures !SomeHolds(ls, ss, req, skip)
    ensures Lossless(env) ==> AllTruthful(env, ls, [])
  {
  }

  lemma TouchTruthful(env: Env, l: Level, s: Store, k: Key)
    ensures Truthful(env, l, Touch(s, k)) == Truthful(env, l, s) && Fits(l, Touch(s, k)) == Fits(l, s)
    ensures Touch(s, k).data == s.data
  {
  }

  lemma StoredAnswer(env: Env, l: Level, s: Store, req: Request)
    requires Truthful(env, l, s) && l.key(req) in s.data
    ensures env.llm(req) == Some(env.decode(s.data[l.key(req)].answer))
  {
  }

  /** Write-back: after an answer, every enabled level above the one that held the key (all
      of them, if none did) stores it. */
  lemma {:induction false} AdaptWritesBack(env: Env, ls: seq<Level>, ss: seq<Store>, req: Request, skip: bool, searchOnly: bool, factor: real, i: nat)
    requires |ls| == |ss| > 0 && AllTruthful(env, ls, ss) && i < |ls|
    requires forall j :: 0 <= j < i ==> !Holds(ls, ss, req, skip, j)
    requires ls[i].enabled(req) && ls[i].maxsize > 0
    requires Adapt(env, ls, ss, req, skip, searchOnly, factor).reply.Some?
    ensures var o := Adapt(env, ls, ss, req, skip, searchOnly, factor); var k := ls[i].key(req);
      k in o.stores[i].data && Some(env.decode(o.stores[i].data[k].answer)) == o.reply
    decreases |ls|
  {
    hide Truthful, Determined, Lossless, Fits, Save, IsHit, AllTruthful, SomeHolds;
    var l, s, k := ls[0], ss[0], ls[0].key(req);
    TailTruthful(env, ls, ss);
    HitIffStored(env, l, s, req, factor);
    TouchTruthful(env, l, s, k);
    AdaptIsTransparent(env, ls, ss, req, skip, searchOnly, factor);
    var o := Adapt(env, ls, ss, req, skip, searchOnly, factor);
    var looks := l.enabled(req) && !skip;
    if i == 0 {
      if looks && IsHit(l, s, req, factor) {
        StoredAnswer(env, l, s, req);
      } else {
        SaveTruthful(env, l, if looks then Touch(s, k) else s, req, o.reply.value);
      }
    } else {
      assert !Holds(ls, ss, req, skip, 0);
      forall j | 0 <= j < i - 1
        ensures !Holds(ls[1..], ss[1..], req, skip, j)
      {
        assert !Holds(ls, ss, req, skip, j + 1);
      }
      AdaptWritesBack(env, ls[1..], ss[1..], req, skip, searchOnly, factor, i - 1);
      assert o.stores[i] == Adapt(env, ls[1..], ss[1..], req, skip, searchOnly, factor).stores[i - 1];
    }
  }

  /** The key has been stored in a bounded container: with no room at all not; otherwise one
      entry of the policy's choice leaves if the key is new and the container full, and no
      entry leaves if not. */
  ghost predicate SavedAt(l: Level, s: Store, t: Store, k: Key, e: MapEntry) {
    if l.maxsize == 0 then t == s
    else if k in s.data || |s.data| < l.maxsize then
      t.data == s.data[k := e] && t.accesses == s.accesses + [P.Stored(k, 1.0)]
    else
      var v := l.policy(s.accesses, s.data.Keys);
      t.data == (s.data - {v})[k := e] && t.accesses == s.accesses + [P.Popped(v), P.Stored(k, 1.0)]
  }

  lemma SaveIs(l: Level, s: Store, k: Key, e: MapEntry)
    ensures SavedAt(l, s, Save(l, s, k, e), k, e)
  {
  }

  /** No level above `i` is looked at and has its key. */
  predicate PassedTo(ls: seq<Level>, ss: seq<Store>, req: Request, skip: bool, i: nat)
    requires |ls| == |ss| && i < |ls|
  {
    forall j :: 0 <= j < i ==> !Holds(ls, ss, req, skip, j)
  }

  /** What a request does to level `i`, completely: nothing below the level that answers, one
      access at that level, nothing at a disabled level, and at every other level passed
      through the reply is stored, if there is one. */
  ghost predicate LevelIs(env: Env, ls: seq<Level>, ss: seq<Store>, req: Request, skip: bool, i: nat, o: Outcome)
    requires |ls| == |ss| == |o.stores| && i < |ls|
  {
    var s, t, k := ss[i], o.stores[i], ls[i].key(req);
    if !PassedTo(ls, ss, req, skip, i) || !ls[i].enabled(req) then t == s
    else if Holds(ls, ss, req, skip, i) then t.data == s.data && t.accesses == s.accesses + [P.Touched(k)]
    else if o.reply.None? then t == s
    else SavedAt(ls[i], s, t, k, MapEntry(k, env.encode(o.reply.value)))
  }

  lemma FirstLevelIs(env: Env, ls: seq<Level>, ss: seq<Store>, req: Request, skip: bool, searchOnly: bool, factor: real)
    requires |ls| == |ss| > 0 && AllTruthful(env, ls, ss)
    ensures var o := Adapt(env, ls, ss, req, skip, searchOnly, factor);
      LevelIs(env, ls, ss, req, skip, 0, o) && (Holds(ls, ss, req, skip, 0) ==> o.stores[1..] == ss[1..])
  {
    hide Truthful, Determined, Lossless, Fits, Save, IsHit, AllTruthful, SomeHolds, SavedAt;
    var l, s, k := ls[0], ss[0], ls[0].key(req);
    TailTruthful(env, ls, ss);
    HitIffStored(env, l, s, req, factor);
    var o := Adapt(env, ls, ss, req, skip, searchOnly, factor);
    if o.reply.Some? {
      SaveIs(l, s, k, MapEntry(k, env.encode(o.reply.value)));
    }
  }

  lemma {:induction false} EveryLevelIs(env: Env, ls: seq<Level>, ss: seq<Store>, req: Request, skip: bool, searchOnly: bool, factor: real, i: nat)
    requires |ls| == |ss| > 0 && AllTruthful(env, ls, ss) && i < |ls|
    ensures LevelIs(env, ls, ss, req, skip, i, Adapt(env, ls, ss, req, skip, searchOnly, factor))
    decreases |ls|
  {
    hide Truthful, Determined, Lossless, Fits, Save, IsHit, AllTruthful, SomeHolds, SavedAt, Touch;
    FirstLevelIs(env, ls, ss, req, skip, searchOnly, factor);
    if i > 0 {
      TailTruthful(env, ls, ss);
      HitIffStored(env, ls[0], ss[0], req, factor);
      var o := Adapt(env, ls, ss, req, skip, searchOnly, factor);
      var below := Adapt(env, ls[1..], ss[1..], req, skip, searchOnly, factor);
      EveryLevelIs(env, ls[1..], ss[1..], req, skip, searchOnly, factor, i - 1);
      PassedBelow(ls, ss, req, skip, i);
      if Holds(ls, ss, req, skip, 0) {
        assert o.stores[i] == o.stores[1..][i - 1] == ss[1..][i - 1];
      } else {
        assert o.reply == below.reply && o.stores[i] == below.stores[i - 1];
      }
    }
  }

  lemma PassedBelow(ls: seq<Level>, ss: seq<Store>, req: Request, skip: bool, i: nat)
    requires |ls| == |ss| && 0 < i < |ls|
    ensures PassedTo(ls, ss, req, skip, i) <==> !Holds(ls, ss, req, skip, 0) && PassedTo(ls[1..], ss[1..], req, skip, i - 1)
    ensures Holds(ls, ss, req, skip, i) == Holds(ls[1..], ss[1..], req, skip, i - 1)
  {
    forall j | 0 < j <= i
      ensures Holds(ls, ss, req, skip, j) == Holds(ls[1..], ss[1..], req, skip, j - 1)
    {
    }
    if !Holds(ls, ss, req, skip, 0) && PassedTo(ls[1..], ss[1..], req, skip, i - 1) {
      forall j | 0 <= j < i
        ensures !Holds(ls, ss, req, skip, j)
      {
        if j > 0 {
          assert !Holds(ls[1..], ss[1..], req, skip, j - 1);
        }
      }
    }
    if PassedTo(ls, ss, req, skip, i) {
      forall j | 0 <= j < i - 1
        ensures !Holds(ls[1..], ss[1..], req, skip, j)
      {
        assert !Holds(ls, ss, req, skip, j + 1);
      }
    }
  }

  // ---------- runs ----------

  datatype Call = Call(req: Request, skip: bool, searchOnly: bool, factor: real)

  function Replies(env: Env, ls: seq<Level>, ss: seq<Store>, calls: seq<Call>): (rs: seq<Option<Response>>)
    requires |ls| == |ss| > 0
    ensures |rs| == |calls|
    decreases |calls|
  {
    if |calls| == 0 then []
    else
      var o := Adapt(env, ls, ss, calls[0].req, calls[0].skip, calls[0].searchOnly, calls[0].factor);
      [o.reply] + Replies(env, ls, o.stores, calls[1..])
  }

  /** Transparency of every run: under any evictions, any mix of skips and searches, each
      request gets what the LLM would have said, or nothing if it only searched. */
  lemma {:induction false} RunsAreTransparent(env: Env, ls: seq<Level>, ss: seq<Store>, calls: seq<Call>, i: nat)
    requires |ls| == |ss| > 0 && AllTruthful(env, ls, ss) && i < |calls|
    ensures var r := Replies(env, ls, ss, calls)[i];
      && (!calls[i].searchOnly ==> r == env.llm(calls[i].req))
      && (r.Some? ==> r == env.llm(calls[i].req))
    decreases i
  {
    hide AllTruthful, Adapt;
    var c := calls[0];
    AdaptIsTransparent(env, ls, ss, c.req, c.skip, c.searchOnly, c.factor);
    if i > 0 {
      var o := Adapt(env, ls, ss, c.req, c.skip, c.searchOnly, c.factor);
      RunsAreTransparent(env, ls, o.stores, calls[1..], i - 1);
      assert calls[i] == calls[1..][i - 1];
    }
  }

  lemma EmptyIsTruthful(env: Env, ls: seq<Level>, ss: seq<Store>)
    requires |ls| == |ss| && Lossless(env) && (forall i :: 0 <= i < |ls| ==> Determined(env, ls[i]) && P.Sound(ls[i].policy))
    requires forall i :: 0 <= i < |ss| ==> ss[i].data == map[]
    ensures AllTruthful(env, ls, ss)
  {
  }

  // ---------- the objects ----------

  class MapDataManager {
    var data: map<Key, MapEntry>
    var accesses: seq<P.Access>

    function Abs(): Store
      reads this
    {
      Store(data, accesses)
    }

    constructor ()
      ensures Abs() == Store(map[], [])
    {
      data, accesses := map[], [];
    }

    /** `search`: at most one result, none on KeyError. */
    method Search(k: Key) returns (found: Option<MapEntry>)
      modifies this
      ensures Abs() == Touch(old(Abs()), k)
      ensures data == old(data)
      ensures accesses == if k in old(data) then old(accesses) + [P.Touched(k)] else old(accesses)
      ensures found == if k in old(data) then Some(old(data)[k]) else None
    {
      if k !in data {
        return None;
      }
      accesses := accesses + [P.Touched(k)];
      found := Some(data[k]);
    }

    method SaveEntry(l: Level, k: Key, e: MapEntry)
      requires Fits(l, Abs())
      modifies this
      ensures Abs() == Save(l, old(Abs()), k, e) && SavedAt(l, old(Abs()), Abs(), k, e)
    {
      if l.maxsize == 0 {
        return;
      }
      RoomMade(l, Abs(), k);
      if k !in data {
        ghost var full := |data| + 1 > l.maxsize;
        while |data| + 1 > l.maxsize
          invariant Abs() == old(Abs()) || (full && Abs() == EvictOne(l, old(Abs())))
          decreases |data|
        {
          var v := l.policy(accesses, data.Keys);
          assert |data.Keys| > 0;
          assert (data - {v}).Keys == data.Keys - {v};
          data := data - {v};
          accesses := accesses + [P.Popped(v)];
        }
      }
      data := data[k := e];
      accesses := accesses + [P.Stored(k, 1.0)];
    }
  }

  function Contents(dms: seq<MapDataManager>): (ss: seq<Store>)
    reads set d | d in dms
    ensures |ss| == |dms|
  {
    if |dms| == 0 then [] else [dms[0].Abs()] + Contents(dms[1..])
  }

  /** The lookup in one cache. */
  method LookUp(dm: MapDataManager, l: Level, req: Request, skip: bool, factor: real) returns (hit: Option<Text>)
    modifies dm
    ensures dm.Abs() == Looked(l, old(dm.Abs()), req, skip)
    ensures hit == if l.enabled(req) && !skip && IsHit(l, old(dm.Abs()), req, factor)
                   then Some(old(dm.data)[l.key(req)].answer) else None
  {
    if !l.enabled(req) || skip {
      return None;
    }
    var k := l.key(req);
    var found := dm.Search(k);
    if found.None? {
      return None;
    }
    var threshold := R.RankThreshold(0.0, 1.0, l.similarity, factor);
    var rank := ExactMatch(k, found.value.question);
    hit := if threshold <= rank then Some(found.value.answer) else None;
  }

  /** The write-back of what came from below. */
  method WriteBack(env: Env, dm: MapDataManager, l: Level, req: Request, reply: Option<Response>)
    requires Fits(l, dm.Abs())
    modifies dm
    ensures dm.Abs() == Written(env, l, old(dm.Abs()), req, reply)
  {
    hide Fits, Save;
    if reply.Some? && l.enabled(req) {
      dm.SaveEntry(l, l.key(req), MapEntry(l.key(req), env.encode(reply.value)));
    }
  }

  ghost predicate AllFit(ls: seq<Level>, ss: seq<Store>)
    requires |ls| == |ss|
  {
    forall i :: 0 <= i < |ls| ==> Fits(ls[i], ss[i])
  }

  lemma TailFits(ls: seq<Level>, ss: seq<Store>)
    requires |ls| == |ss| > 0 && AllFit(ls, ss)
    ensures Fits(ls[0], ss[0]) && AllFit(ls[1..], ss[1..])
  {
    hide Fits;
  }

  lemma LookedFits(l: Level, s: Store, req: Request, skip: bool)
    ensures Fits(l, s) ==> Fits(l, Looked(l, s, req, skip))
  {
  }

  /** What the first cache does with the outcome from below it. */
  lemma FirstLevel(env: Env, ls: seq<Level>, ss: seq<Store>, req: Request, skip: bool, searchOnly: bool, factor: real,
                   below: Outcome)
    requires |ls| == |ss| > 0
    requires below == if |ls| > 1 then Adapt(env, ls[1..], ss[1..], req, skip, searchOnly, factor)
                      else if searchOnly then Outcome(None, [], 0) else Outcome(env.llm(req), [], 1)
    ensures var s := Looked(ls[0], ss[0], req, skip);
      Adapt(env, ls, ss, req, skip, searchOnly, factor) == if ls[0].enabled(req) && !skip && IsHit(ls[0], ss[0], req, factor)
           then Outcome(Some(env.decode(ss[0].data[ls[0].key(req)].answer)), [s] + ss[1..], 0)
           else Outcome(below.reply, [Written(env, ls[0], s, req, below.reply)] + below.stores, below.calls)
  {
    hide Touch, Save;
  }

  /** `adapt` over the linked caches, `dms[0]` first. */
  method AdaptChain(env: Env, ls: seq<Level>, dms: seq<MapDataManager>, req: Request, skip: bool, searchOnly: bool, factor: real)
    returns (reply: Option<Response>, calls: nat)
    requires |ls| == |dms| > 0 && (forall i, j :: 0 <= i < j < |dms| ==> dms[i] != dms[j])
    requires AllFit(ls, Contents(dms))
    modifies set d | d in dms
    ensures Outcome(reply, Contents(dms), calls) == Adapt(env, ls, old(Contents(dms)), req, skip, searchOnly, factor)
    decreases |ls|
  {
    hide Fits, AllFit, Adapt, IsHit, Looked, Written, Contents;
    ghost var ss := Contents(dms);
    ContentsTail(dms);
    TailFits(ls, ss);
    LookedFits(ls[0], ss[0], req, skip);
    var hit := LookUp(dms[0], ls[0], req, skip, factor);
    assert Contents(dms[1..]) == ss[1..];
    ghost var below: Outcome;
    if |ls| == 1 {
      NoContents(dms[1..]);
      below := if searchOnly then Outcome(None, [], 0) else Outcome(env.llm(req), [], 1);
    } else {
      below := Adapt(env, ls[1..], ss[1..], req, skip, searchOnly, factor);
    }
    FirstLevel(env, ls, ss, req, skip, searchOnly, factor, below);
    ContentsTail(dms);
    if hit.Some? {
      return Some(env.decode(hit.value)), 0;
    }
    if |ls| > 1 {
      reply, calls := AdaptChain(env, ls[1..], dms[1..], req, skip, searchOnly, factor);
    } else if searchOnly {
      reply, calls := None, 0;
    } else {
      reply, calls := env.llm(req), 1;
    }
    assert Contents(dms[1..]) == below.stores;
    WriteBack(env, dms[0], ls[0], req, reply);
    ContentsTail(dms);
  }

  lemma NoContents(dms: seq<MapDataManager>)
    requires |dms| == 0
    ensures Contents(dms) == []
  {
  }

  lemma ContentsTail(dms: seq<MapDataManager>)
    requires |dms| > 0
    ensures Contents(dms) == [dms[0].Abs()] + Contents(dms[1..]) && Contents(dms)[1..] == Contents(dms[1..])
  {
  }
}
