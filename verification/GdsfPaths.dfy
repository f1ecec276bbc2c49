/** Every operation of the cache, overflow included, is a path of small moves.
    Properties of whole runs are proved move by move. */
module GdsfPaths {
  import opened Basics
  import opened GdsfModel

  datatype Move =
    | EvictOne                      // a successful popitem
    | DrainAll                      // a popitem that raises KeyError
    | Report(keys: seq<Key>)        // on_evict is called
    | Put(key: Key, value: Value)   // the value is stored and pushed
    | Hit(key: Key)
    | Drop(key: Key)                // an explicit deletion

  ghost predicate Enabled(cfg: Config, s: Cache, m: Move) {
    match m
    case EvictOne => s.data != map[]
    case DrainAll => s.data == map[]
    case Report(_) => true
    case Put(k, v) =>
      s.currsize + cfg.getsizeof(v) - (if k in s.data then cfg.getsizeof(s.data[k]) else 0) <= cfg.maxsize
    case Hit(k) => k in s.data
    case Drop(k) => k in s.data
  }

  ghost function Apply(cfg: Config, s: Cache, m: Move): (r: Cache)
    requires Valid(cfg, s) && Enabled(cfg, s, m)
    ensures Valid(cfg, r)
  {
    match m
    case EvictOne => Evict(cfg, s)
    case DrainAll => Drain(cfg, s)
    case Report(keys) => s.(past := s.past.(calls := s.past.calls + [keys]))
    case Put(k, v) => StorePushValid(cfg, s, k, v); Push(cfg, Store(cfg, s, k, v), k, v)
    case Hit(k) => GetItem(cfg, s, k)
    case Drop(k) => DelItem(cfg, s, k)
  }

  ghost predicate Path(cfg: Config, s: Cache, ms: seq<Move>, t: Cache)
    requires Valid(cfg, s)
    decreases |ms|
  {
    if |ms| == 0 then t == s
    else Enabled(cfg, s, ms[0]) && Path(cfg, Apply(cfg, s, ms[0]), ms[1..], t)
  }

  /** A move made on behalf of an operation: only `Set` stores, only `Get` hits,
      only `Del` drops. */
  predicate From(op: Op, m: Move) {
    match m
    case Put(k, v) => op == Set(k, v)
    case Hit(k) => op == Get(k)
    case Drop(k) => op == Del(k)
    case _ => true
  }

  ghost predicate AllFrom(ops: seq<Op>, ms: seq<Move>) {
    forall i :: 0 <= i < |ms| ==> exists j :: 0 <= j < |ops| && From(ops[j], ms[i])
  }

  predicate Internal(ms: seq<Move>) {
    forall m :: m in ms ==> m.EvictOne? || m.DrainAll? || m.Report?
  }

  lemma {:induction false} Join(cfg: Config, s: Cache, a: seq<Move>, t: Cache, b: seq<Move>, u: Cache)
    requires Valid(cfg, s) && Path(cfg, s, a, t)
    requires Valid(cfg, t) && Path(cfg, t, b, u)
    ensures Path(cfg, s, a + b, u)
    decreases |a|
  {
    hide Valid, Apply, Enabled;
    if |a| == 0 {
      assert a + b == b;
    } else {
      assert (a + b)[1..] == a[1..] + b;
      Join(cfg, Apply(cfg, s, a[0]), a[1..], t, b, u);
    }
  }

  lemma PathValid(cfg: Config, s: Cache, ms: seq<Move>, t: Cache)
    requires Valid(cfg, s) && Path(cfg, s, ms, t)
    ensures Valid(cfg, t)
    decreases |ms|
  {
    hide Valid, Apply, Enabled;
    if |ms| != 0 {
      PathValid(cfg, Apply(cfg, s, ms[0]), ms[1..], t);
    }
  }

  lemma Single(cfg: Config, s: Cache, m: Move)
    requires Valid(cfg, s) && Enabled(cfg, s, m)
    ensures Path(cfg, s, [m], Apply(cfg, s, m))
  {
    hide Valid, Apply, Enabled;
    assert Path(cfg, Apply(cfg, s, m), [m][1..], Apply(cfg, s, m));
  }

  lemma {:induction false} PopManyPath(cfg: Config, s: Cache, n: nat) returns (ms: seq<Move>)
    requires Valid(cfg, s)
    ensures Path(cfg, s, ms, PopMany(cfg, s, n)) && Internal(ms)
    decreases n
  {
    hide Valid, Evict, Drain;
    if n == 0 {
      ms := [];
    } else if s.data == map[] {
      ms := [DrainAll];
      Single(cfg, s, DrainAll);
    } else {
      var rest := PopManyPath(cfg, Evict(cfg, s), n - 1);
      ms := [EvictOne] + rest;
      assert ms[1..] == rest;
    }
  }

  lemma PopitemPath(cfg: Config, s: Cache) returns (ms: seq<Move>)
    requires Valid(cfg, s)
    ensures Path(cfg, s, ms, Popitem(cfg, s)) && Internal(ms)
  {
    hide Valid, Evict, Drain, Victims, PopMany, Path;
    match cfg.popMode
    case Plain =>
      ms := [if s.data == map[] then DrainAll else EvictOne];
      Single(cfg, s, ms[0]);
    case Batched(n) =>
      var pops := PopManyPath(cfg, s, n);
      var t := PopMany(cfg, s, n);
      var keys := if n <= |s.data| then Victims(cfg, s, n) else [];
      Single(cfg, t, Report(keys));
      Join(cfg, s, pops, t, [Report(keys)], PopBatch(cfg, s, n));
      ms := pops + [Report(keys)];
  }

  lemma {:induction false} MakeRoomPath(cfg: Config, s: Cache, size: nat) returns (ms: seq<Move>)
    requires Valid(cfg, s) && Progressive(cfg) && size <= cfg.maxsize
    ensures Path(cfg, s, ms, MakeRoom(cfg, s, size)) && Internal(ms)
    decreases |s.data|
  {
    if s.currsize + size > cfg.maxsize {
      EmptyHasRoom(cfg, s);
      hide Valid, Popitem;
      var first := PopitemPath(cfg, s);
      var rest := MakeRoomPath(cfg, Popitem(cfg, s), size);
      Join(cfg, s, first, Popitem(cfg, s), rest, MakeRoom(cfg, s, size));
      ms := first + rest;
    } else {
      ms := [];
    }
  }

  lemma EmptyHasRoom(cfg: Config, s: Cache)
    requires Valid(cfg, s)
    ensures s.data == map[] ==> s.currsize == 0
  {
  }

  lemma StepPath(cfg: Config, s: Cache, op: Op) returns (ms: seq<Move>)
    requires Valid(cfg, s) && Progressive(cfg)
    ensures Path(cfg, s, ms, Step(cfg, s, op))
    ensures forall m :: m in ms ==> From(op, m)
  {
    hide Valid, Popitem, Push, Store, MakeRoom, Forget;
    match op
    case Set(k, v) =>
      if TooLarge(cfg, v) {
        ms := [];
      } else {
        ms := [];
        var room := Room(cfg, s, k, v);
        if k !in s.data || cfg.getsizeof(s.data[k]) < cfg.getsizeof(v) {
          ms := MakeRoomPath(cfg, s, cfg.getsizeof(v));
        }
        Single(cfg, room, Put(k, v));
        Join(cfg, s, ms, room, [Put(k, v)], Step(cfg, s, op));
        ms := ms + [Put(k, v)];
      }
    case Get(k) =>
      ms := if k in s.data then [Hit(k)] else [];
      if k in s.data { Single(cfg, s, Hit(k)); }
    case Del(k) =>
      ms := if k in s.data then [Drop(k)] else [];
      if k in s.data { Single(cfg, s, Drop(k)); }
    case PopOp =>
      ms := PopitemPath(cfg, s);
  }

  lemma {:induction false} RunPath(cfg: Config, s: Cache, ops: seq<Op>) returns (ms: seq<Move>)
    requires Valid(cfg, s) && Progressive(cfg)
    ensures Path(cfg, s, ms, Run(cfg, s, ops)) && AllFrom(ops, ms)
    decreases |ops|
  {
    hide Valid, Step;
    if |ops| == 0 {
      ms := [];
    } else {
      var first := StepPath(cfg, s, ops[0]);
      var t := Step(cfg, s, ops[0]);
      var rest := RunPath(cfg, t, ops[1..]);
      Join(cfg, s, first, t, rest, Run(cfg, s, ops));
      ms := first + rest;
      forall i | 0 <= i < |ms|
        ensures exists j :: 0 <= j < |ops| && From(ops[j], ms[i])
      {
        if i < |first| {
          assert From(ops[0], ms[i]);
        } else {
          var j :| 0 <= j < |ops[1..]| && From(ops[1..][j], rest[i - |first|]);
          assert From(ops[j + 1], ms[i]);
        }
      }
    }
  }
}
