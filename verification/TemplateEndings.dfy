/** How extraction ends: with values or with an IndexError, on any text and template, and
    on text formatted from a template that ends in a field or in a literal. */
module TemplateEndings {
  import opened Basics
  import opened TemplateValues

  // ---------- IndexError, on any text ----------

  /** The literals occur in the text at strictly increasing positions. */
  predicate Ladder(text: string, lits: seq<string>, at: seq<nat>) {
    && |at| == |lits|
    && (forall i :: 0 <= i < |lits| ==> MatchesAt(text, lits[i], at[i]))
    && (forall i, j :: 0 <= i < j < |at| ==> at[i] < at[j])
  }

  /** The literals the loop looks for before it runs out of names: one per name, the one it
      has no name for, and the one that ends that one's value. */
  function Sought(lits: seq<string>, names: seq<string>): (r: seq<string>)
    ensures r <= lits
  {
    if |names| + 2 <= |lits| then lits[..|names| + 2] else lits
  }

  lemma PrependRung(text: string, lits: seq<string>, p: nat, at: seq<nat>)
    requires |lits| > 0 && MatchesAt(text, lits[0], p)
    requires Ladder(text, lits[1..], at) && (|at| > 0 ==> p < at[0])
    ensures Ladder(text, lits, [p] + at)
  {
    hide MatchesAt;
    assert forall i :: 0 < i < |lits| ==> lits[i] == lits[1..][i - 1];
  }

  lemma DropRung(text: string, lits: seq<string>, at: seq<nat>)
    requires |lits| > 0 && Ladder(text, lits, at)
    ensures Ladder(text, lits[1..], at[1..]) && MatchesAt(text, lits[0], at[0])
    ensures |lits| > 1 ==> at[0] < at[1] && MatchesAt(text, lits[1], at[1])
  {
    hide MatchesAt;
  }

  /** One round of the loop. */
  lemma Round(text: string, lits: seq<string>, names: seq<string>, i: nat, last: nat, acc: map<string, string>)
    requires i < |lits|
    ensures var start := Find(text, lits[i], last); var end := EndOf(text, lits, i, start);
      && start >= -1 && end >= -1
      && Extract(text, lits, names, i, last, acc) ==
           if start == -1 || end == -1 then Values(acc)
           else if i >= |names| then IndexError
           else Extract(text, lits, names, i + 1, end, acc[names[i] := Slice(text, start + |lits[i]|, end)])
  {
  }

  lemma {:induction false} ErrorClimbs(text: string, lits: seq<string>, names: seq<string>, i: nat, last: nat,
                                       acc: map<string, string>) returns (at: seq<nat>)
    requires |names| < |lits| && i <= |names|
    requires Extract(text, lits, names, i, last, acc) == IndexError
    ensures Ladder(text, Sought(lits, names)[i..], at) && |at| > 0 && last <= at[0]
    decreases |names| - i
  {
    hide Find, Slice, MatchesAt, Extract, Ladder;
    var needed := Sought(lits, names)[i..];
    Round(text, lits, names, i, last, acc);
    FindIsFirst(text, lits[i], last);
    var start := Find(text, lits[i], last);
    assert start != -1 && EndOf(text, lits, i, start) != -1;
    if i < |lits| - 1 {
      FindIsFirst(text, lits[i + 1], start + 1);
      var end := Find(text, lits[i + 1], start + 1);
      if i == |names| {
        at := [end];
        OneRung(text, needed[1..], end);
      } else {
        at := ErrorClimbs(text, lits, names, i + 1, end, acc[names[i] := Slice(text, start + |lits[i]|, end)]);
        assert needed[1..] == Sought(lits, names)[i + 1..];
      }
    } else {
      at := [];
      NoRung(text, needed[1..]);
    }
    PrependRung(text, needed, start, at);
    at := [start] + at;
  }

  lemma OneRung(text: string, lits: seq<string>, p: nat)
    requires |lits| == 1 && MatchesAt(text, lits[0], p)
    ensures Ladder(text, lits, [p])
  {
  }

  lemma NoRung(text: string, lits: seq<string>)
    requires |lits| == 0
    ensures Ladder(text, lits, [])
  {
  }

  lemma {:induction false} LadderErrs(text: string, lits: seq<string>, names: seq<string>, i: nat, last: nat,
                                      acc: map<string, string>, at: seq<nat>)
    requires |names| < |lits| && i <= |names|
    requires Ladder(text, Sought(lits, names)[i..], at) && |at| > 0 && last <= at[0]
    ensures Extract(text, lits, names, i, last, acc) == IndexError
    decreases |names| - i
  {
    hide Find, Slice, MatchesAt, Extract, Ladder;
    var needed := Sought(lits, names)[i..];
    SizeOfLadder(text, needed, at);
    DropRung(text, needed, at);
    Round(text, lits, names, i, last, acc);
    FindIsFirst(text, lits[i], last);
    var start := Find(text, lits[i], last);
    if i < |lits| - 1 {
      FindIsFirst(text, lits[i + 1], start + 1);
      var end := Find(text, lits[i + 1], start + 1);
      if i < |names| {
        assert needed[1..] == Sought(lits, names)[i + 1..];
        LadderErrs(text, lits, names, i + 1, end, acc[names[i] := Slice(text, start + |lits[i]|, end)], at[1..]);
      }
    }
  }

  lemma SizeOfLadder(text: string, lits: seq<string>, at: seq<nat>)
    requires Ladder(text, lits, at)
    ensures |at| == |lits|
  {
  }

  lemma {:induction false} EnoughNames(text: string, lits: seq<string>, names: seq<string>, i: nat, last: nat,
                                       acc: map<string, string>)
    requires i <= |lits| <= |names|
    ensures Extract(text, lits, names, i, last, acc).Values?
    decreases |lits| - i
  {
    hide Find, Slice, Extract;
    if i == |lits| {
      ExtractDone(text, lits, names, last, acc);
    } else {
      Round(text, lits, names, i, last, acc);
      var start := Find(text, lits[i], last);
      var end := EndOf(text, lits, i, start);
      if start != -1 && end != -1 {
        EnoughNames(text, lits, names, i + 1, end, acc[names[i] := Slice(text, start + |lits[i]|, end)]);
      }
    }
  }

  /** On any text and template: IndexError if and only if there are more literals than
      fields and the literals looked for occur one after the other. */
  lemma IndexErrorIff(text: string, segments: seq<Segment>)
    ensures var lits, names := Literals(segments), FieldNames(segments);
      Extract(text, lits, names, 0, 0, map[]) == IndexError <==>
        |names| < |lits| && exists at :: Ladder(text, Sought(lits, names), at)
  {
    hide Find, Slice, MatchesAt, Extract, Ladder, FieldNames, Literals;
    var lits, names := Literals(segments), FieldNames(segments);
    if |names| >= |lits| {
      EnoughNames(text, lits, names, 0, 0, map[]);
    } else {
      assert Sought(lits, names)[0..] == Sought(lits, names);
      if Extract(text, lits, names, 0, 0, map[]) == IndexError {
        var at := ErrorClimbs(text, lits, names, 0, 0, map[]);
      }
      if exists at :: Ladder(text, Sought(lits, names), at) {
        var at :| Ladder(text, Sought(lits, names), at);
        SizeOfLadder(text, Sought(lits, names), at);
        LadderErrs(text, lits, names, 0, 0, map[], at);
      }
    }
  }

  // ---------- formatted text ----------

  /** A literal at the end is followed by nothing. */
  function Padded(lits: seq<string>, vals: seq<string>): (r: seq<string>)
    requires |vals| <= |lits| <= |vals| + 1
    ensures |r| == |lits| && forall i :: 0 <= i < |vals| ==> r[i] == vals[i]
  {
    if |vals| < |lits| then vals + [""] else vals
  }

  /** The formatted text of a template that ends in a field or in a literal. */
  function Text(lits: seq<string>, vals: seq<string>): string
    requires |vals| <= |lits| <= |vals| + 1
  {
    Format(lits, Padded(lits, vals), |lits|)
  }

  /** Every literal but the last is followed by something before the next one. */
  predicate Substantial(lits: seq<string>, vals: seq<string>)
    requires |vals| <= |lits|
  {
    forall j :: 0 <= j < |vals| ==> |lits[j]| + |vals[j]| > 0
  }

  function Positions(lits: seq<string>, vals: seq<string>, n: nat): (at: seq<nat>)
    requires n <= |lits| == |vals|
    ensures |at| == n
  {
    seq(n, i requires 0 <= i < n => Pos(lits, vals, i))
  }

  lemma {:induction false} PosRises(lits: seq<string>, vals: seq<string>, i: nat, j: nat)
    requires i < j < |lits| == |vals|
    requires forall k :: i <= k < j ==> |lits[k]| + |vals[k]| > 0
    ensures Pos(lits, vals, i) < Pos(lits, vals, j)
    decreases j - i
  {
    hide Format, MatchesAt, Pos;
    PiecesInPlace(lits, vals, j - 1);
    if i < j - 1 {
      PosRises(lits, vals, i, j - 1);
    }
  }

  lemma TrueLadder(lits: seq<string>, vals: seq<string>)
    requires |vals| <= |lits| <= |vals| + 1 && Substantial(lits, vals)
    requires |lits| == |vals| + 1
    ensures Ladder(Text(lits, vals), lits, Positions(lits, Padded(lits, vals), |lits|))
  {
    hide Format, MatchesAt, Pos;
    var vs := Padded(lits, vals);
    forall i | 0 <= i < |lits|
      ensures MatchesAt(Text(lits, vals), lits[i], Pos(lits, vs, i))
    {
      PiecesInPlace(lits, vs, i);
    }
    forall i, j | 0 <= i < j < |lits|
      ensures Pos(lits, vs, i) < Pos(lits, vs, j)
    {
      PosRises(lits, vs, i, j);
    }
  }

  /** Text formatted from a template that ends in a literal always raises IndexError, as long
      as no empty value follows an empty literal. */
  lemma LiteralEndedRaises(lits: seq<string>, names: seq<string>, vals: seq<string>)
    requires |lits| == |vals| + 1 && |names| == |vals| && Substantial(lits, vals)
    ensures Extract(Text(lits, vals), lits, names, 0, 0, map[]) == IndexError
  {
    hide Ladder, Extract, Text, Format, Pos, Substantial;
    TrueLadder(lits, vals);
    var at := Positions(lits, Padded(lits, vals), |lits|);
    assert Sought(lits, names)[0..] == lits;
    LadderErrs(Text(lits, vals), lits, names, 0, 0, map[], at);
  }

  // ---------- a literal at the end never round-trips ----------

  /** Where the loop stops without an error, the field it was at is missing. */
  lemma {:induction false} StopsShort(text: string, lits: seq<string>, names: seq<string>, i: nat, last: nat,
                                      acc: map<string, string>)
    requires |lits| == |names| + 1 && i <= |names| && Distinct(names) && MatchesAt(text, lits[i], last)
    requires forall j :: i <= j < |names| ==> names[j] !in acc
    ensures var r := Extract(text, lits, names, i, last, acc);
      r.Values? ==> exists j :: i <= j < |names| && names[j] !in r.fields
    decreases |names| - i
  {
    hide Slice, MatchesAt, Extract, Find;
    Round(text, lits, names, i, last, acc);
    FindIsFirst(text, lits[i], last);
    var start := Find(text, lits[i], last);
    if i < |names| {
      FindIsFirst(text, lits[i + 1], start + 1);
      var end := Find(text, lits[i + 1], start + 1);
      if end != -1 {
        StopsShort(text, lits, names, i + 1, end, acc[names[i] := Slice(text, start + |lits[i]|, end)]);
      } else {
        assert names[i] !in acc;
      }
    }
  }

  lemma StartsAtZero(lits: seq<string>, vals: seq<string>)
    requires |lits| == |vals| > 0
    ensures Pos(lits, vals, 0) == 0 && MatchesAt(Format(lits, vals, |lits|), lits[0], 0)
  {
    PiecesInPlace(lits, vals, 0);
  }

  /** What extraction makes of text formatted from any template that ends in a literal:
      IndexError if and only if the literals occur one after the other; that is so unless an
      empty value follows an empty literal; and otherwise a field goes missing. */
  lemma LiteralEndedRaisesIff(lits: seq<string>, names: seq<string>, vals: seq<string>)
    requires |lits| == |vals| + 1 && |names| == |vals| && Distinct(names)
    ensures var text := Text(lits, vals); var r := Extract(text, lits, names, 0, 0, map[]);
      && (r == IndexError <==> exists at :: Ladder(text, lits, at))
      && (Substantial(lits, vals) ==> r == IndexError)
      && (r != IndexError ==> exists j :: 0 <= j < |names| && names[j] !in r.fields)
  {
    hide Ladder, Extract, Text, Format, Pos, Substantial, MatchesAt, Distinct;
    var text := Text(lits, vals);
    assert Sought(lits, names)[0..] == lits;
    if Extract(text, lits, names, 0, 0, map[]) == IndexError {
      var at := ErrorClimbs(text, lits, names, 0, 0, map[]);
    }
    if exists at :: Ladder(text, lits, at) {
      var at :| Ladder(text, lits, at);
      SizeOfLadder(text, lits, at);
      LadderErrs(text, lits, names, 0, 0, map[], at);
    }
    if Substantial(lits, vals) {
      LiteralEndedRaises(lits, names, vals);
    }
    StartsAtZero(lits, Padded(lits, vals));
    assert text == Format(lits, Padded(lits, vals), |lits|) by { TextIs(lits, vals); }
    StopsShort(text, lits, names, 0, 0, map[]);
  }

  lemma TextIs(lits: seq<string>, vals: seq<string>)
    requires |vals| <= |lits| <= |vals| + 1
    ensures Text(lits, vals) == Format(lits, Padded(lits, vals), |lits|)
  {
  }

  lemma LiteralEndedNeverRecovers(lits: seq<string>, names: seq<string>, vals: seq<string>)
    requires |lits| == |vals| + 1 && |names| == |vals| && Distinct(names)
    ensures Extract(Text(lits, vals), lits, names, 0, 0, map[]) != Values(Expected(names, vals, |vals|))
  {
    hide Ladder, Extract, Text, Expected;
    LiteralEndedRaisesIff(lits, names, vals);
    forall j | 0 <= j < |names|
      ensures names[j] in Expected(names, vals, |vals|)
    {
      ExpectedAt(names, vals, |vals|, j);
    }
  }

  predicate EndsInField(segments: seq<Segment>) {
    |segments| == 0 || segments[|segments| - 1].field.Some?
  }

  /** Only the last segment may be a literal without a field: no escaped braces. */
  predicate Plain(segments: seq<Segment>) {
    forall i :: 0 <= i < |segments| - 1 ==> segments[i].field.Some?
  }

  lemma NamesOfPlain(segments: seq<Segment>)
    requires Plain(segments)
    ensures |FieldNames(segments)| == if EndsInField(segments) then |segments| else |segments| - 1
  {
    hide Decimal;
    if |segments| > 0 {
      var front := segments[..|segments| - 1];
      assert forall i :: 0 <= i < |front| ==> front[i].field.Some?;
    }
  }

  /** The round trip, for any number of fields: extraction recovers exactly the formatted
      values if and only if the template ends in a field and every next literal is first
      met at its true position. */
  lemma RoundTripIff(segments: seq<Segment>, vals: seq<string>)
    requires Plain(segments) && |vals| == |FieldNames(segments)| && Distinct(FieldNames(segments))
    ensures |vals| <= |segments| <= |vals| + 1 && (EndsInField(segments) <==> |vals| == |segments|)
    ensures var lits, names := Literals(segments), FieldNames(segments);
      Extract(Text(lits, vals), lits, names, 0, 0, map[]) == Values(Expected(names, vals, |vals|)) <==>
        EndsInField(segments) && Unambiguous(Text(lits, vals), lits, vals)
  {
    NamesOfPlain(segments);
    hide Extract, Unambiguous, FieldNames, Literals, Expected, Format, Distinct;
    var lits, names := Literals(segments), FieldNames(segments);
    if EndsInField(segments) {
      FieldEndedRoundTripIff(lits, names, vals);
    } else {
      LiteralEndedNeverRecovers(lits, names, vals);
    }
  }
}
