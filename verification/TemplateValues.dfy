/** gptcache/processor/pre.py, `_get_pattern_value`: recovering field values from a
    formatted template. */
module TemplateValues {
  import opened Basics

  /** What `string.Formatter().parse` yields: a literal, then a field or nothing. */
  datatype Segment = Segment(literal: string, field: Option<string>)

  /** IndexError when there are more literals than fields. */
  datatype Result = Values(fields: map<string, string>) | IndexError

  // ---------- str.find and slicing ----------

  predicate MatchesAt(s: string, sub: string, p: nat) {
    p + |sub| <= |s| && s[p..p + |sub|] == sub
  }

  function Find(s: string, sub: string, from: nat): (p: int)
    ensures p == -1 || from <= p <= |s|
    decreases |s| - from
  {
    if from > |s| then -1
    else if MatchesAt(s, sub, from) then from
    else if from < |s| then Find(s, sub, from + 1)
    else -1
  }

  /** The first match at or after `from`, and -1 exactly when there is none. */
  lemma {:induction false} FindIsFirst(s: string, sub: string, from: nat)
    ensures var p := Find(s, sub, from);
      && (p >= 0 ==> MatchesAt(s, sub, p))
      && (forall q: nat :: from <= q && MatchesAt(s, sub, q) ==> 0 <= p <= q)
    decreases |s| - from
  {
    if from < |s| && !MatchesAt(s, sub, from) {
      FindIsFirst(s, sub, from + 1);
    }
  }

  /** `s[a:b]` for non-negative bounds. */
  function Slice(s: string, a: nat, b: nat): string {
    if a <= b <= |s| then s[a..b] else if b > |s| && a <= |s| then s[a..] else ""
  }

  // ---------- field names ----------

  function Decimal(n: nat): string {
    if n < 10 then [('0' as int + n) as char] else Decimal(n / 10) + [('0' as int + n % 10) as char]
  }

  /** An unnamed field is called by its position. */
  function FieldNames(segments: seq<Segment>): (names: seq<string>)
    ensures |names| <= |segments|
    ensures (forall i :: 0 <= i < |segments| ==> segments[i].field.Some?) ==> |names| == |segments|
  {
    if |segments| == 0 then []
    else
      var names := FieldNames(segments[..|segments| - 1]);
      match segments[|segments| - 1].field
      case None => names
      case Some(f) => names + [if f == "" then Decimal(|names|) else f]
  }

  /** The number a string of digits stands for. */
  function Number(digits: string): int {
    if |digits| == 0 then 0 else 10 * Number(digits[..|digits| - 1]) + (digits[|digits| - 1] as int - '0' as int)
  }

  predicate Digits(s: string) {
    |s| > 0 && forall i :: 0 <= i < |s| ==> '0' <= s[i] <= '9'
  }

  /** The decimal form of a number: digits without leading zeros that read back as it. */
  lemma {:induction false} DecimalReads(n: nat)
    ensures Digits(Decimal(n)) && Number(Decimal(n)) == n
    ensures n > 0 ==> Decimal(n)[0] != '0'
    decreases n
  {
    var last := [('0' as int + n % 10) as char];
    if n >= 10 {
      DecimalReads(n / 10);
      assert (Decimal(n / 10) + last)[..|Decimal(n)| - 1] == Decimal(n / 10);
    } else {
      assert Number(Decimal(n)[..0]) == 0;
    }
  }

  /** One more segment adds its field's name, or the number of fields before it, in decimal. */
  lemma NamesAre(segments: seq<Segment>, segment: Segment)
    ensures var names, more := FieldNames(segments), FieldNames(segments + [segment]);
      match segment.field
      case None => more == names
      case Some(f) =>
        && |more| == |names| + 1 && more[..|names|] == names
        && (f != "" ==> more[|names|] == f)
        && (f == "" ==> Digits(more[|names|]) && Number(more[|names|]) == |names|
                        && (|names| > 0 ==> more[|names|][0] != '0'))
  {
    hide Decimal, Number;
    assert (segments + [segment])[..|segments|] == segments;
    DecimalReads(|FieldNames(segments)|);
  }

  function Literals(segments: seq<Segment>): (lits: seq<string>)
    ensures |lits| == |segments|
  {
    seq(|segments|, i requires 0 <= i < |segments| => segments[i].literal)
  }

  // ---------- the extraction ----------

  function Extract(text: string, lits: seq<string>, names: seq<string>, i: nat, last: nat, acc: map<string, string>): Result
    requires i <= |lits|
    decreases |lits| - i
  {
    if i == |lits| then Values(acc)
    else
      var start := Find(text, lits[i], last);
      var end := if i == |lits| - 1 then |text| else Find(text, lits[i + 1], start + 1);
      if start == -1 || end == -1 then Values(acc)
      else if i >= |names| then IndexError
      else Extract(text, lits, names, i + 1, end, acc[names[i] := Slice(text, start + |lits[i]|, end)])
  }

  method ParseTemplate(segments: seq<Segment>) returns (lits: seq<string>, names: seq<string>)
    ensures lits == Literals(segments) && names == FieldNames(segments)
  {
    hide Decimal;
    lits, names := [], [];
    for i := 0 to |segments|
      invariant lits == Literals(segments)[..i]
      invariant names == FieldNames(segments[..i])
    {
      assert segments[..i + 1][..i] == segments[..i];
      lits := lits + [segments[i].literal];
      if segments[i].field.Some? {
        var f := segments[i].field.value;
        names := names + [if f == "" then Decimal(|names|) else f];
      }
    }
    assert segments[..|segments|] == segments;
  }

  method GetPatternValue(segments: seq<Segment>, text: string) returns (r: Result)
    ensures r == Extract(text, Literals(segments), FieldNames(segments), 0, 0, map[])
  {
    hide Find, Slice, FieldNames, Literals;
    var lits, names := ParseTemplate(segments);
    var values: map<string, string> := map[];
    var last := 0;
    for i := 0 to |lits|
      invariant 0 <= last
      invariant Extract(text, lits, names, i, last, values) == Extract(text, lits, names, 0, 0, map[])
    {
      var start := Find(text, lits[i], last);
      var end := if i == |lits| - 1 then |text| else Find(text, lits[i + 1], start + 1);
      if start == -1 || end == -1 {
        return Values(values);
      }
      if i >= |names| {
        return IndexError;
      }
      values := values[names[i] := Slice(text, start + |lits[i]|, end)];
      last := end;
    }
    r := Values(values);
  }

  // ---------- formatting ----------

  /** The text of the first `n` literals, each followed by its value. */
  function Format(lits: seq<string>, vals: seq<string>, n: nat): string
    requires n <= |lits| == |vals|
  {
    if n == 0 then "" else Format(lits, vals, n - 1) + lits[n - 1] + vals[n - 1]
  }

  /** Where literal `i` really starts. */
  function Pos(lits: seq<string>, vals: seq<string>, i: nat): nat
    requires i <= |lits| == |vals|
  {
    |Format(lits, vals, i)|
  }

  function Expected(names: seq<string>, vals: seq<string>, n: nat): (m: map<string, string>)
    requires n <= |names| == |vals|
  {
    if n == 0 then map[] else Expected(names, vals, n - 1)[names[n - 1] := vals[n - 1]]
  }

  /** Searching from one past a literal's start, the next literal is not met before its
      true position. */
  predicate MetInPlace(text: string, lits: seq<string>, vals: seq<string>, i: nat)
    requires i + 1 < |lits| == |vals|
  {
    Find(text, lits[i + 1], Pos(lits, vals, i) + 1) == Pos(lits, vals, i + 1)
  }

  predicate Unambiguous(text: string, lits: seq<string>, vals: seq<string>)
    requires |lits| == |vals|
  {
    forall i :: 0 <= i < |lits| - 1 ==> MetInPlace(text, lits, vals, i)
  }

  lemma {:induction false} FormatPrefix(lits: seq<string>, vals: seq<string>, i: nat, n: nat)
    requires i <= n <= |lits| == |vals|
    ensures Format(lits, vals, i) <= Format(lits, vals, n)
    decreases n - i
  {
    if i < n {
      FormatPrefix(lits, vals, i, n - 1);
    }
  }

  /** Literal `i` and value `i` sit where they were put. */
  lemma PiecesInPlace(lits: seq<string>, vals: seq<string>, i: nat)
    requires i < |lits| == |vals|
    ensures var text, p, q := Format(lits, vals, |lits|), Pos(lits, vals, i), Pos(lits, vals, i + 1);
      && MatchesAt(text, lits[i], p) && q == p + |lits[i]| + |vals[i]| <= |text|
      && text[p + |lits[i]|..q] == vals[i]
      && (i == |lits| - 1 ==> q == |text|)
  {
    FormatPrefix(lits, vals, i + 1, |lits|);
    var text, head := Format(lits, vals, |lits|), Format(lits, vals, i + 1);
    assert head == Format(lits, vals, i) + lits[i] + vals[i];
    assert text[..|head|] == head;
    var p := Pos(lits, vals, i);
    assert text[p..p + |lits[i]|] == head[p..p + |lits[i]|] == lits[i];
    assert text[p + |lits[i]|..|head|] == head[p + |lits[i]|..] == vals[i];
  }

  /** Where the loop looks for the end of value `i`. */
  function EndOf(text: string, lits: seq<string>, i: nat, start: int): int
    requires i < |lits| && start >= -1
  {
    if i == |lits| - 1 then |text| else Find(text, lits[i + 1], start + 1)
  }

  lemma OneStep(text: string, lits: seq<string>, names: seq<string>, i: nat, last: nat, acc: map<string, string>)
    requires i < |lits| == |names| && MatchesAt(text, lits[i], last)
    ensures Find(text, lits[i], last) == last
    ensures var end := EndOf(text, lits, i, last);
      end >= -1 &&
      Extract(text, lits, names, i, last, acc) ==
        if end == -1 then Values(acc)
        else Extract(text, lits, names, i + 1, end, acc[names[i] := Slice(text, last + |lits[i]|, end)])
  {
  }

  lemma ExtractDone(text: string, lits: seq<string>, names: seq<string>, last: nat, acc: map<string, string>)
    ensures Extract(text, lits, names, |lits|, last, acc) == Values(acc)
  {
  }

  lemma Met(text: string, lits: seq<string>, vals: seq<string>, i: nat)
    requires i + 1 < |lits| == |vals| && MetInPlace(text, lits, vals, i)
    ensures Find(text, lits[i + 1], Pos(lits, vals, i) + 1) == Pos(lits, vals, i + 1)
  {
  }

  lemma SliceAt(text: string, a: nat, b: nat)
    ensures a <= b <= |text| ==> Slice(text, a, b) == text[a..b]
    ensures b <= |text| ==> |Slice(text, a, b)| == if a <= b then b - a else 0
  {
  }

  // ---------- unambiguous templates round-trip ----------

  lemma StepInPlace(lits: seq<string>, names: seq<string>, vals: seq<string>, i: nat)
    requires i < |lits| == |vals| == |names|
    requires i < |lits| - 1 ==> MetInPlace(Format(lits, vals, |lits|), lits, vals, i)
    ensures Extract(Format(lits, vals, |lits|), lits, names, i, Pos(lits, vals, i), Expected(names, vals, i))
         == Extract(Format(lits, vals, |lits|), lits, names, i + 1, Pos(lits, vals, i + 1), Expected(names, vals, i + 1))
  {
    hide Find, Slice, Format, MatchesAt, Extract, Pos, MetInPlace;
    var text := Format(lits, vals, |lits|);
    PiecesInPlace(lits, vals, i);
    var p, q := Pos(lits, vals, i), Pos(lits, vals, i + 1);
    OneStep(text, lits, names, i, p, Expected(names, vals, i));
    if i < |lits| - 1 {
      Met(text, lits, vals, i);
    }
    SliceAt(text, p + |lits[i]|, q);
  }

  lemma {:induction false} ExtractsFrom(lits: seq<string>, names: seq<string>, vals: seq<string>, i: nat)
    requires i <= |lits| == |vals| == |names|
    requires Unambiguous(Format(lits, vals, |lits|), lits, vals)
    ensures Extract(Format(lits, vals, |lits|), lits, names, i, Pos(lits, vals, i), Expected(names, vals, i))
         == Values(Expected(names, vals, |lits|))
    decreases |lits| - i
  {
    hide Find, Slice, Format, MatchesAt, Extract, Pos, MetInPlace;
    var text := Format(lits, vals, |lits|);
    if i == |lits| {
      ExtractDone(text, lits, names, Pos(lits, vals, i), Expected(names, vals, i));
    } else {
      StepInPlace(lits, names, vals, i);
      ExtractsFrom(lits, names, vals, i + 1);
    }
  }

  // ---------- ambiguous ones do not ----------

  /** Entries of the accumulator under other names survive to the end. */
  lemma {:induction false} ExtractKeeps(text: string, lits: seq<string>, names: seq<string>, i: nat, last: nat,
                                        acc: map<string, string>, k: string)
    requires i <= |lits| && forall j :: i <= j < |names| ==> names[j] != k
    ensures var r := Extract(text, lits, names, i, last, acc);
      r.Values? ==> (k in r.fields <==> k in acc) && (k in acc ==> r.fields[k] == acc[k])
    decreases |lits| - i
  {
    if i < |lits| {
      var start := Find(text, lits[i], last);
      var end := if i == |lits| - 1 then |text| else Find(text, lits[i + 1], start + 1);
      if start != -1 && end != -1 && i < |names| {
        ExtractKeeps(text, lits, names, i + 1, end, acc[names[i] := Slice(text, start + |lits[i]|, end)], k);
      }
    }
  }

  lemma {:induction false} ExpectedAt(names: seq<string>, vals: seq<string>, n: nat, i: nat)
    requires i < n <= |names| == |vals| && Distinct(names)
    ensures names[i] in Expected(names, vals, n) && Expected(names, vals, n)[names[i]] == vals[i]
    decreases n
  {
    if i < n - 1 {
      assert names[i] != names[n - 1];
      ExpectedAt(names, vals, n - 1, i);
    }
  }

  /** A wrong value, or none, under `names[i]` spoils the result. */
  lemma WrongStaysWrong(text: string, lits: seq<string>, names: seq<string>, vals: seq<string>, i: nat, last: nat,
                        acc: map<string, string>)
    requires i < |lits| == |names| == |vals| && Distinct(names)
    requires names[i] in acc ==> acc[names[i]] != vals[i]
    ensures Extract(text, lits, names, i + 1, last, acc) != Values(Expected(names, vals, |lits|))
  {
    ExtractKeeps(text, lits, names, i + 1, last, acc, names[i]);
    ExpectedAt(names, vals, |lits|, i);
  }

  /** Once the search runs behind the true positions it never catches up unnoticed: the last
      value comes out too long, if nothing went wrong before. */
  lemma {:induction false} BehindFails(lits: seq<string>, names: seq<string>, vals: seq<string>, i: nat, last: nat,
                                       acc: map<string, string>)
    requires i < |lits| == |names| == |vals| && Distinct(names)
    requires last < Pos(lits, vals, i) && MatchesAt(Format(lits, vals, |lits|), lits[i], last)
    ensures Extract(Format(lits, vals, |lits|), lits, names, i, last, acc) != Values(Expected(names, vals, |lits|))
    decreases |lits| - i, 1
  {
    hide Find, Slice, Format, MatchesAt, Extract, Expected;
    var text := Format(lits, vals, |lits|);
    PiecesInPlace(lits, vals, i);
    var from := last + |lits[i]|;
    OneStep(text, lits, names, i, last, acc);
    if i == |lits| - 1 {
      SliceAt(text, from, |text|);
      WrongStaysWrong(text, lits, names, vals, i, |text|, acc[names[i] := Slice(text, from, |text|)]);
    } else {
      var end := Find(text, lits[i + 1], last + 1);
      FindIsFirst(text, lits[i + 1], last + 1);
      PiecesInPlace(lits, vals, i + 1);
      assert 0 <= end <= Pos(lits, vals, i + 1) <= |text|;
      SliceAt(text, from, end);
      PieceDecides(lits, names, vals, i, from, end, acc);
    }
  }

  /** A value that ends too early, or is wrong, spoils the result. */
  lemma {:induction false} PieceDecides(lits: seq<string>, names: seq<string>, vals: seq<string>, i: nat, from: nat, end: nat,
                                        acc: map<string, string>)
    requires i + 1 < |lits| == |names| == |vals| && Distinct(names)
    requires MatchesAt(Format(lits, vals, |lits|), lits[i + 1], end)
    requires Slice(Format(lits, vals, |lits|), from, end) == vals[i] ==> end < Pos(lits, vals, i + 1)
    ensures Extract(Format(lits, vals, |lits|), lits, names, i + 1, end,
                    acc[names[i] := Slice(Format(lits, vals, |lits|), from, end)])
         != Values(Expected(names, vals, |lits|))
    decreases |lits| - i, 0
  {
    hide Find, Slice, Format, MatchesAt, Extract, Expected, Pos, Distinct;
    var text := Format(lits, vals, |lits|);
    var piece := Slice(text, from, end);
    if piece != vals[i] {
      WrongStaysWrong(text, lits, names, vals, i, end, acc[names[i] := piece]);
    } else {
      BehindFails(lits, names, vals, i + 1, end, acc[names[i] := piece]);
    }
  }

  /** The first ambiguous place already decides. */
  lemma {:induction false} AmbiguousFails(lits: seq<string>, names: seq<string>, vals: seq<string>, i: nat)
    requires i + 1 < |lits| == |names| == |vals| && Distinct(names)
    requires !MetInPlace(Format(lits, vals, |lits|), lits, vals, i)
    ensures Extract(Format(lits, vals, |lits|), lits, names, i, Pos(lits, vals, i), Expected(names, vals, i))
         != Values(Expected(names, vals, |lits|))
  {
    hide Find, Slice, Format, MatchesAt, Extract, Expected, Pos, Distinct;
    var text, p, q := Format(lits, vals, |lits|), Pos(lits, vals, i), Pos(lits, vals, i + 1);
    var acc := Expected(names, vals, i);
    PiecesInPlace(lits, vals, i);
    PiecesInPlace(lits, vals, i + 1);
    OneStep(text, lits, names, i, p, acc);
    var end := Find(text, lits[i + 1], p + 1);
    FindIsFirst(text, lits[i + 1], p + 1);
    NotYetNamed(names, vals, i);
    ExpectedAt(names, vals, |lits|, i);
    if end != -1 {
      SliceAt(text, p + |lits[i]|, end);
      PieceDecides(lits, names, vals, i, p + |lits[i]|, end, acc);
    }
  }

  lemma NotYetNamed(names: seq<string>, vals: seq<string>, i: nat)
    requires i < |names| == |vals| && Distinct(names)
    ensures names[i] !in Expected(names, vals, i)
  {
    NotAmongFirst(names, vals, i, i);
  }

  lemma {:induction false} NotAmongFirst(names: seq<string>, vals: seq<string>, n: nat, i: nat)
    requires n <= i < |names| == |vals| && Distinct(names)
    ensures names[i] !in Expected(names, vals, n)
    decreases n
  {
    if n > 0 {
      assert names[n - 1] != names[i];
      NotAmongFirst(names, vals, n - 1, i);
    }
  }

  /** Up to the first ambiguous place the extraction is on track. */
  lemma {:induction false} OnTrack(lits: seq<string>, names: seq<string>, vals: seq<string>, i: nat)
    requires i < |lits| == |names| == |vals|
    requires forall j :: 0 <= j < i ==> MetInPlace(Format(lits, vals, |lits|), lits, vals, j)
    ensures Extract(Format(lits, vals, |lits|), lits, names, 0, 0, map[])
         == Extract(Format(lits, vals, |lits|), lits, names, i, Pos(lits, vals, i), Expected(names, vals, i))
    decreases i
  {
    hide Find, Slice, MatchesAt, Extract, MetInPlace, Format, Pos, Expected;
    if i == 0 {
      AtTheStart(lits, names, vals);
    } else {
      OnTrack(lits, names, vals, i - 1);
      StepInPlace(lits, names, vals, i - 1);
    }
  }

  lemma AtTheStart(lits: seq<string>, names: seq<string>, vals: seq<string>)
    requires |lits| == |names| == |vals|
    ensures Pos(lits, vals, 0) == 0 && Expected(names, vals, 0) == map[]
  {
  }

  /** The round trip of a template that ends in a field: extraction recovers exactly the
      formatted values if and only if every next literal is first met at its true position. */
  lemma FieldEndedRoundTripIff(lits: seq<string>, names: seq<string>, vals: seq<string>)
    requires |lits| == |names| == |vals| && Distinct(names)
    ensures var text := Format(lits, vals, |lits|);
      Extract(text, lits, names, 0, 0, map[]) == Values(Expected(names, vals, |lits|)) <==> Unambiguous(text, lits, vals)
  {
    hide Find, Slice, MatchesAt, Extract, MetInPlace, Format, Pos, Expected, Distinct;
    var text := Format(lits, vals, |lits|);
    if Unambiguous(text, lits, vals) {
      AtTheStart(lits, names, vals);
      ExtractsFrom(lits, names, vals, 0);
    } else {
      var i := FirstAmbiguous(text, lits, vals);
      OnTrack(lits, names, vals, i);
      AmbiguousFails(lits, names, vals, i);
    }
  }

  lemma FirstAmbiguous(text: string, lits: seq<string>, vals: seq<string>) returns (i: nat)
    requires |lits| == |vals| && !Unambiguous(text, lits, vals)
    ensures i + 1 < |lits| && !MetInPlace(text, lits, vals, i)
    ensures forall j :: 0 <= j < i ==> MetInPlace(text, lits, vals, j)
  {
    hide MetInPlace;
    i := 0;
    while i + 1 < |lits| && MetInPlace(text, lits, vals, i)
      invariant i < |lits| || |lits| == 0
      invariant forall j :: 0 <= j < i ==> j + 1 < |lits| && MetInPlace(text, lits, vals, j)
      decreases |lits| - i
    {
      i := i + 1;
    }
  }
}
