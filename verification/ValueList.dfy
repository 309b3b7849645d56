/**
 * Comma and range value lists such as `40-46,48` (hemlock-common, net.rs).
 */
module ValueList {
  import opened Basics
  import opened Decimal

  type U8 = x: int | 0 <= x < 256

  datatype Span = Span(low: U8, high: U8)

  // ---------------------------------------------------------------- sets of values

  function Covered(spans: seq<Span>): set<int> {
    if spans == [] then {} else Between(spans[0].low, spans[0].high) + Covered(spans[1..])
  }

  /** Strictly ascending. */
  predicate Ascending(values: seq<U8>) {
    forall i, j :: 0 <= i < j < |values| ==> values[i] < values[j]
  }

  function Members(values: seq<U8>): set<int> {
    set x <- values
  }

  lemma FirstMember(values: seq<U8>)
    ensures values == [] || values[0] as int in Members(values)
  {
  }

  /** A set has one ascending list. */
  lemma {:induction false} AscendingUnique(a: seq<U8>, b: seq<U8>)
    requires Ascending(a) && Ascending(b) && Members(a) == Members(b)
    ensures a == b
  {
    if a == [] {
      FirstMember(b);
    } else {
      assert a[0] in Members(a) && a[0] in Members(b);
      assert b != [] && b[0] in Members(b) && b[0] in Members(a);
      assert a[0] == b[0];
      assert a == [a[0]] + a[1..] && b == [b[0]] + b[1..];
      assert Members(a[1..]) == Members(a) - {a[0]};
      assert Members(b[1..]) == Members(b) - {b[0]};
      AscendingUnique(a[1..], b[1..]);
    }
  }

  /** Adds to an ordered set. */
  function Insert(x: U8, values: seq<U8>): seq<U8> {
    if values == [] || x < values[0] then [x] + values
    else if x == values[0] then values
    else [values[0]] + Insert(x, values[1..])
  }

  lemma MembersCons(x: U8, values: seq<U8>)
    ensures Members([x] + values) == {x as int} + Members(values)
  {
  }

  lemma {:induction false} InsertMembers(x: U8, values: seq<U8>)
    ensures Members(Insert(x, values)) == Members(values) + {x as int}
  {
    if values == [] || x < values[0] {
      MembersCons(x, values);
    } else {
      assert values == [values[0]] + values[1..] && values[0] as int in Members(values);
      MembersCons(values[0], values[1..]);
      if x > values[0] {
        InsertMembers(x, values[1..]);
        MembersCons(values[0], Insert(x, values[1..]));
      }
    }
  }

  lemma {:induction false} InsertAscends(x: U8, values: seq<U8>)
    requires Ascending(values)
    ensures Ascending(Insert(x, values))
  {
    if values != [] && x > values[0] {
      var rest := Insert(x, values[1..]);
      InsertAscends(x, values[1..]);
      InsertMembers(x, values[1..]);
      forall i | 0 <= i < |rest| ensures values[0] < rest[i] {
        assert rest[i] as int in Members(rest);
      }
    }
  }

  /** Sorted, without repetitions. */
  function SortDedup(values: seq<U8>): seq<U8> {
    if values == [] then [] else Insert(values[0], SortDedup(values[1..]))
  }

  lemma {:induction false} SortDedupIs(values: seq<U8>)
    ensures Ascending(SortDedup(values)) && Members(SortDedup(values)) == Members(values)
  {
    if values != [] {
      assert values == [values[0]] + values[1..];
      MembersCons(values[0], values[1..]);
      SortDedupIs(values[1..]);
      InsertMembers(values[0], SortDedup(values[1..]));
      InsertAscends(values[0], SortDedup(values[1..]));
    }
  }

  // ---------------------------------------------------------------- text

  function Split(s: string): (r: seq<string>)
    ensures r != []
  {
    if s == "" then [""]
    else if s[0] == ',' then [""] + Split(s[1..])
    else var rest := Split(s[1..]); [[s[0]] + rest[0]] + rest[1..]
  }

  function Join(parts: seq<string>): string {
    if parts == [] then "" else if |parts| == 1 then parts[0] else parts[0] + "," + Join(parts[1..])
  }

  /** What stands before and after the first dash. */
  function SplitOnce(s: string): Option<(string, string)> {
    if s == "" then None
    else if s[0] == '-' then Some(("", s[1..]))
    else var rest := SplitOnce(s[1..]); if rest.None? then None else Some(([s[0]] + rest.value.0, rest.value.1))
  }

  function ReadPart(part: string, max: U8): (r: Option<Span>)
    ensures r.Some? ==> r.value.low <= r.value.high <= max
  {
    var halves := SplitOnce(part);
    var low := Read(if halves.None? then part else halves.value.0, 255);
    var high := if halves.None? then low else Read(halves.value.1, 255);
    if low.None? || high.None? || (halves.Some? && low.value >= high.value) || high.value > max then None
    else Some(Span(low.value, high.value))
  }

  function ReadParts(parts: seq<string>, max: U8): Option<seq<Span>> {
    if parts == [] then Some([]) else
      var head, tail := ReadPart(parts[0], max), ReadParts(parts[1..], max);
      if head.None? || tail.None? then None else Some([head.value] + tail.value)
  }

  function ReadSpans(text: string, max: U8): Option<seq<Span>> {
    if text == "" then None else ReadParts(Split(text), max)
  }

  /** The parsed list: the covered values in ascending order. */
  ghost predicate Parses(text: string, max: U8, r: Option<seq<U8>>) {
    var spans := ReadSpans(text, max);
    if spans.None? then r.None?
    else r.Some? && Ascending(r.value) && Members(r.value) == Covered(spans.value)
  }

  function PartText(span: Span): string {
    if span.low == span.high then Print(span.low) else Print(span.low) + "-" + Print(span.high)
  }

  function PartTexts(spans: seq<Span>): (r: seq<string>)
    ensures |r| == |spans|
  {
    if spans == [] then [] else [PartText(spans[0])] + PartTexts(spans[1..])
  }

  // ---------------------------------------------------------------- reading what was written

  lemma {:induction false} SplitFirst(part: string, rest: string)
    requires ',' !in part
    ensures Split(part) == [part]
    ensures Split(part + "," + rest) == [part] + Split(rest)
  {
    if part == "" {
      assert part + "," + rest == "," + rest;
    } else {
      SplitFirst(part[1..], rest);
      assert (part + "," + rest)[1..] == part[1..] + "," + rest;
      assert part == [part[0]] + part[1..];
    }
  }

  lemma {:induction false} SplitJoin(parts: seq<string>)
    requires parts != [] && forall part <- parts :: ',' !in part
    ensures Split(Join(parts)) == parts
  {
    if |parts| == 1 {
      SplitFirst(parts[0], "");
      assert parts == [parts[0]];
    } else {
      SplitJoin(parts[1..]);
      SplitFirst(parts[0], Join(parts[1..]));
    }
  }

  lemma {:induction false} SplitOnceAt(low: string, high: string)
    requires '-' !in low
    ensures SplitOnce(low) == None && SplitOnce(low + "-" + high) == Some((low, high))
  {
    if low == "" {
      assert (low + "-" + high)[1..] == high;
    } else {
      SplitOnceAt(low[1..], high);
      assert (low + "-" + high)[1..] == low[1..] + "-" + high;
      assert low == [low[0]] + low[1..];
    }
  }

  lemma PrintPlain(n: nat)
    ensures ',' !in Print(n) && '-' !in Print(n)
  {
    assert forall c <- Print(n) :: IsDigit(c);
  }

  /** One printed span reads back exactly when it is within bounds. */
  lemma PartReadsIff(span: Span, max: U8)
    requires span.low <= span.high
    ensures ReadPart(PartText(span), max) == if span.high <= max then Some(span) else None
    ensures ',' !in PartText(span) && PartText(span) != ""
  {
    PrintPlain(span.low);
    PrintPlain(span.high);
    SplitOnceAt(Print(span.low), Print(span.high));
    ReadPrintIff(span.low, 255);
    ReadPrintIff(span.high, 255);
  }

  predicate Forward(spans: seq<Span>) {
    forall s <- spans :: s.low <= s.high
  }

  predicate Within(spans: seq<Span>, max: U8) {
    forall s <- spans :: s.high <= max
  }

  lemma {:induction false} PartsRead(spans: seq<Span>, max: U8)
    requires Forward(spans)
    ensures ReadParts(PartTexts(spans), max) == if Within(spans, max) then Some(spans) else None
    ensures forall part <- PartTexts(spans) :: ',' !in part
  {
    if spans != [] {
      PartReadsIff(spans[0], max);
      PartsRead(spans[1..], max);
      assert spans == [spans[0]] + spans[1..];
      assert PartTexts(spans)[1..] == PartTexts(spans[1..]);
    }
  }

  lemma TextReads(spans: seq<Span>, max: U8)
    requires Forward(spans)
    ensures ReadSpans(Join(PartTexts(spans)), max) == if spans != [] && Within(spans, max) then Some(spans) else None
  {
    if spans != [] {
      PartsRead(spans, max);
      PartReadsIff(spans[0], max);
      assert Join(PartTexts(spans))[0] == PartText(spans[0])[0];
      SplitJoin(PartTexts(spans));
    }
  }

  // ---------------------------------------------------------------- the printed form

  /** Runs in order that could not be longer: a gap follows each. */
  predicate Maximal(spans: seq<Span>) {
    Forward(spans) && forall i, j :: 0 <= i < j < |spans| ==> spans[i].high + 1 < spans[j].low
  }

  /** What the formatter prints for some values. */
  ghost predicate Formats(values: seq<U8>, spans: seq<Span>) {
    Maximal(spans) && Covered(spans) == Members(values)
  }

  /** The text of some values: their maximal runs, joined. */
  ghost predicate Prints(values: seq<U8>, text: string) {
    exists spans :: Formats(values, spans) && text == Join(PartTexts(spans))
  }

  lemma {:induction false} CoveredAfter(spans: seq<Span>, x: int)
    requires Forward(spans) && x in Covered(spans)
    ensures exists s <- spans :: s.low <= x <= s.high
  {
    if !(spans[0].low <= x <= spans[0].high) {
      CoveredAfter(spans[1..], x);
      var s :| s in spans[1..] && s.low <= x <= s.high;
      assert s in spans;
    }
  }

  /** The first run of a maximal cover is settled by the values. */
  lemma FirstRun(a: seq<Span>, x: int)
    requires Maximal(a) && a != []
    ensures x in Covered(a) ==> a[0].low <= x
    ensures a[0].low <= x <= a[0].high ==> x in Covered(a)
    ensures a[0].high + 1 !in Covered(a)
    ensures Covered(a[1..]) == Covered(a) - Between(a[0].low, a[0].high)
  {
    assert a[0] in a && a[0].low <= a[0].high;
    assert Covered(a) == Between(a[0].low, a[0].high) + Covered(a[1..]);
    forall y | y in Covered(a[1..]) ensures a[0].high + 1 < y {
      CoveredAfter(a[1..], y);
      var s :| s in a[1..] && s.low <= y <= s.high;
      var i :| 0 < i < |a| && a[i] == s;
    }
  }

  lemma SameFirstRun(a: seq<Span>, b: seq<Span>)
    requires Maximal(a) && Maximal(b) && Covered(a) == Covered(b) && a != [] && b != []
    ensures a[0] == b[0] && Covered(a[1..]) == Covered(b[1..])
  {
    CoveredHas(a, a[0]);
    CoveredHas(b, b[0]);
    FirstRun(a, b[0].low);
    FirstRun(b, a[0].low);
    assert a[0].low == b[0].low;
    FirstRun(a, b[0].high + 1);
    FirstRun(b, a[0].high + 1);
  }

  lemma MaximalTail(a: seq<Span>)
    requires Maximal(a) && a != []
    ensures Maximal(a[1..])
  {
  }

  /** Some values have one list of maximal runs, so one text. */
  lemma {:induction false} MaximalUnique(a: seq<Span>, b: seq<Span>)
    requires Maximal(a) && Maximal(b) && Covered(a) == Covered(b)
    ensures a == b
  {
    if a == [] || b == [] {
      if a != [] { CoveredHas(a, a[0]); }
      if b != [] { CoveredHas(b, b[0]); }
    } else {
      SameFirstRun(a, b);
      MaximalTail(a);
      MaximalTail(b);
      MaximalUnique(a[1..], b[1..]);
      assert a == [a[0]] + a[1..] && b == [b[0]] + b[1..];
    }
  }

  lemma PrintsUnique(values: seq<U8>, others: seq<U8>, one: string, two: string)
    requires Members(values) == Members(others) && Prints(values, one) && Prints(others, two)
    ensures one == two
  {
    var a :| Formats(values, a) && one == Join(PartTexts(a));
    var b :| Formats(others, b) && two == Join(PartTexts(b));
    MaximalUnique(a, b);
  }

  lemma {:induction false} CoveredHas(spans: seq<Span>, s: Span)
    requires s in spans && s.low <= s.high
    ensures s.low in Covered(spans) && s.high in Covered(spans)
  {
    if s != spans[0] {
      CoveredHas(spans[1..], s);
    }
  }

  lemma {:induction false} CoveredBelow(spans: seq<Span>, max: U8)
    requires Within(spans, max)
    ensures forall x <- Covered(spans) :: x <= max
  {
    if spans != [] {
      CoveredBelow(spans[1..], max);
    }
  }

  lemma WithinIff(values: seq<U8>, spans: seq<Span>, max: U8)
    requires Formats(values, spans)
    ensures spans == [] <==> values == []
    ensures Within(spans, max) <==> forall x <- values :: x <= max
  {
    if spans != [] { CoveredHas(spans, spans[0]); }
    if values != [] { assert values[0] as int in Members(values); }
    if Within(spans, max) {
      CoveredBelow(spans, max);
      forall x | x in values ensures x <= max { assert x as int in Members(values); }
    } else {
      var s :| s in spans && s.high > max;
      CoveredHas(spans, s);
    }
  }

  /**
   * Parsing formatted values gives their sorted, deduplicated list, exactly when there
   * are values and all are within bounds.
   */
  lemma RoundTripIff(values: seq<U8>, text: string, max: U8, r: Option<seq<U8>>)
    requires Prints(values, text) && Parses(text, max, r)
    ensures r == Some(SortDedup(values)) <==> values != [] && forall x <- values :: x <= max
  {
    var spans :| Formats(values, spans) && text == Join(PartTexts(spans));
    TextReads(spans, max);
    WithinIff(values, spans, max);
    SortDedupIs(values);
    if r.Some? {
      AscendingUnique(r.value, SortDedup(values));
    }
  }

  // ---------------------------------------------------------------- the most compact form

  /** A text pays for each number once, with the separator after it. */
  function Price(n: nat): nat {
    |Print(n)| + 1
  }

  function Ends(spans: seq<Span>): set<int> {
    if spans == [] then {} else {spans[0].low as int, spans[0].high as int} + Ends(spans[1..])
  }

  /** The price of all numbers of a set below n. */
  function Total(values: set<int>, n: nat): nat {
    if n == 0 then 0 else Total(values, n - 1) + if n - 1 in values then Price(n - 1) else 0
  }

  lemma {:induction false} TotalUnion(a: set<int>, b: set<int>, n: nat)
    ensures Total(a + b, n) <= Total(a, n) + Total(b, n)
    ensures a !! b ==> Total(a + b, n) == Total(a, n) + Total(b, n)
  {
    if n > 0 { TotalUnion(a, b, n - 1); }
  }

  lemma {:induction false} TotalMonotone(a: set<int>, b: set<int>, n: nat)
    requires a <= b
    ensures Total(a, n) <= Total(b, n)
  {
    if n > 0 { TotalMonotone(a, b, n - 1); }
  }

  lemma {:induction false} TotalNone(n: nat)
    ensures Total({}, n) == 0
  {
    if n > 0 { TotalNone(n - 1); }
  }

  lemma {:induction false} TotalOne(v: nat, n: nat)
    ensures Total({v as int}, n) == if v < n then Price(v) else 0
  {
    if n > 0 { TotalOne(v, n - 1); }
  }

  /** A run costs its ends, once when they are the same. */
  lemma PartPrice(s: Span, n: nat)
    requires s.low <= s.high < n
    ensures |PartText(s)| + 1 == Total({s.low as int, s.high as int}, n)
  {
    var low, high: set<int> := {s.low as int}, {s.high as int};
    TotalOne(s.low, n);
    TotalOne(s.high, n);
    TotalUnion(low, high, n);
    assert {s.low as int, s.high as int} == low + high;
    assert s.low == s.high ==> low + high == low;
  }

  function Length(parts: seq<string>): nat {
    if parts == [] then 0 else |parts[0]| + 1 + Length(parts[1..])
  }

  lemma {:induction false} JoinLength(parts: seq<string>)
    requires parts != []
    ensures |Join(parts)| + 1 == Length(parts)
  {
    if |parts| > 1 { JoinLength(parts[1..]); }
  }

  lemma {:induction false} SplitLength(s: string)
    ensures Length(Split(s)) == |s| + 1
  {
    if s != "" {
      SplitLength(s[1..]);
      var rest := Split(s[1..]);
      if s[0] != ',' { assert Split(s)[1..] == rest[1..]; }
    }
  }

  /** No list of runs is cheaper than the ends it names. */
  lemma {:induction false} EndsBound(spans: seq<Span>, n: nat)
    requires Forward(spans) && forall s <- spans :: s.high < n
    ensures Total(Ends(spans), n) <= Length(PartTexts(spans))
  {
    if spans == [] {
      TotalNone(n);
    } else {
      assert spans[0] in spans;
      PartPrice(spans[0], n);
      EndsBound(spans[1..], n);
      TotalUnion({spans[0].low as int, spans[0].high as int}, Ends(spans[1..]), n);
      assert PartTexts(spans)[1..] == PartTexts(spans[1..]);
    }
  }

  lemma {:induction false} EndsAfter(spans: seq<Span>, low: int)
    requires Forward(spans) && forall s <- spans :: low < s.low
    ensures forall x <- Ends(spans) :: low < x
  {
    if spans != [] {
      assert spans[0] in spans;
      EndsAfter(spans[1..], low);
    }
  }

  /** Maximal runs share no ends. */
  lemma {:induction false} MaximalPrice(spans: seq<Span>, n: nat)
    requires Maximal(spans) && forall s <- spans :: s.high < n
    ensures Length(PartTexts(spans)) == Total(Ends(spans), n)
  {
    if spans == [] {
      TotalNone(n);
    } else {
      assert spans[0] in spans;
      PartPrice(spans[0], n);
      MaximalTail(spans);
      MaximalPrice(spans[1..], n);
      EndsAfter(spans[1..], spans[0].high);
      TotalUnion({spans[0].low as int, spans[0].high as int}, Ends(spans[1..]), n);
      assert PartTexts(spans)[1..] == PartTexts(spans[1..]);
    }
  }

  lemma {:induction false} EndsHas(spans: seq<Span>, s: Span)
    requires s in spans
    ensures s.low as int in Ends(spans) && s.high as int in Ends(spans)
  {
    if s != spans[0] { EndsHas(spans[1..], s); }
  }

  /** Neither neighbour of a maximal run is covered. */
  lemma Neighbours(spans: seq<Span>, r: Span)
    requires Maximal(spans) && r in spans
    ensures r.low - 1 !in Covered(spans) && r.high + 1 !in Covered(spans)
  {
    var i :| 0 <= i < |spans| && spans[i] == r;
    forall x | x in Covered(spans) ensures x != r.low - 1 && x != r.high + 1 {
      CoveredAfter(spans, x);
      var s :| s in spans && s.low <= x <= s.high;
      var j :| 0 <= j < |spans| && spans[j] == s;
      assert i < j || j < i || i == j;
    }
  }

  lemma {:induction false} CoveredAll(spans: seq<Span>, s: Span, x: int)
    requires s in spans && s.low <= x <= s.high
    ensures x in Covered(spans)
  {
    if s != spans[0] { CoveredAll(spans[1..], s, x); }
  }

  /** Any cover names the values that have no neighbour on one side. */
  lemma EndNamed(spans: seq<Span>, x: int)
    requires Forward(spans) && x in Covered(spans)
    ensures x - 1 !in Covered(spans) || x + 1 !in Covered(spans) ==> x in Ends(spans)
  {
    CoveredAfter(spans, x);
    var s :| s in spans && s.low <= x <= s.high;
    if s.low < x { CoveredAll(spans, s, x - 1); }
    if x < s.high { CoveredAll(spans, s, x + 1); }
    EndsHas(spans, s);
  }

  lemma {:induction false} EndsOf(spans: seq<Span>, x: int)
    requires x in Ends(spans)
    ensures exists s <- spans :: x == s.low || x == s.high
  {
    if x != spans[0].low && x != spans[0].high {
      EndsOf(spans[1..], x);
      var s :| s in spans[1..] && (x == s.low || x == s.high);
      assert s in spans;
    }
  }

  lemma MaximalCheapest(runs: seq<Span>, spans: seq<Span>, n: nat)
    requires Maximal(runs) && Forward(spans) && Covered(spans) == Covered(runs)
    requires (forall s <- runs :: s.high < n) && forall s <- spans :: s.high < n
    ensures Length(PartTexts(runs)) <= Length(PartTexts(spans))
  {
    forall x | x in Ends(runs) ensures x in Ends(spans) {
      EndsOf(runs, x);
      var r :| r in runs && (x == r.low || x == r.high);
      Neighbours(runs, r);
      CoveredHas(runs, r);
      EndNamed(spans, x);
    }
    TotalMonotone(Ends(runs), Ends(spans), n);
    MaximalPrice(runs, n);
    EndsBound(spans, n);
  }

  /** A number is spelled with at least its own digits. */
  lemma ReadLength(s: string, max: nat)
    requires Read(s, max).Some?
    ensures |Print(Read(s, max).value)| <= |s|
  {
    PrintShortest(if s[0] == '+' then s[1..] else s);
  }

  lemma {:induction false} SplitOnceLength(s: string)
    requires SplitOnce(s).Some?
    ensures |s| == |SplitOnce(s).value.0| + 1 + |SplitOnce(s).value.1|
  {
    if s[0] != '-' { SplitOnceLength(s[1..]); }
  }

  lemma PartLength(part: string, max: U8)
    requires ReadPart(part, max).Some?
    ensures |PartText(ReadPart(part, max).value)| <= |part|
  {
    var halves := SplitOnce(part);
    if halves.None? {
      ReadLength(part, 255);
    } else {
      SplitOnceLength(part);
      ReadLength(halves.value.0, 255);
      ReadLength(halves.value.1, 255);
    }
  }

  lemma {:induction false} PartsLength(parts: seq<string>, max: U8)
    requires ReadParts(parts, max).Some?
    ensures Length(PartTexts(ReadParts(parts, max).value)) <= Length(parts)
    ensures Forward(ReadParts(parts, max).value) && (parts != [] ==> ReadParts(parts, max).value != [])
  {
    if parts != [] {
      PartLength(parts[0], max);
      PartsLength(parts[1..], max);
      var spans := ReadParts(parts, max).value;
      assert spans[1..] == ReadParts(parts[1..], max).value;
      assert PartTexts(spans)[1..] == PartTexts(spans[1..]);
    }
  }

  /** The printed form is the most compact: no accepted text of the same values is shorter. */
  lemma PrintsShortest(values: seq<U8>, text: string, other: string, max: U8, r: seq<U8>)
    requires Prints(values, text) && Parses(other, max, Some(r)) && Members(r) == Members(values)
    ensures |text| <= |other|
  {
    var runs :| Formats(values, runs) && text == Join(PartTexts(runs));
    var spans := ReadSpans(other, max).value;
    PartsLength(Split(other), max);
    SplitLength(other);
    MaximalCheapest(runs, spans, 256);
    if runs != [] { JoinLength(PartTexts(runs)); }
  }

  // ---------------------------------------------------------------- the loops

  lemma {:induction false} CoveredMore(spans: seq<Span>, s: Span)
    ensures Covered(spans + [s]) == Covered(spans) + Between(s.low, s.high)
  {
    if spans == [] {
      assert spans + [s] == [s];
    } else {
      CoveredMore(spans[1..], s);
      assert (spans + [s])[1..] == spans[1..] + [s];
    }
  }

  method AddSpan(before: seq<U8>, span: Span) returns (values: seq<U8>)
    requires Ascending(before) && span.low <= span.high
    ensures Ascending(values) && Members(values) == Members(before) + Between(span.low, span.high)
  {
    values := before;
    var x: int := span.low;
    while x <= span.high
      invariant span.low <= x <= span.high + 1 && Ascending(values)
      invariant Members(values) == Members(before) + Between(span.low, x - 1)
      decreases span.high - x
    {
      assert Between(span.low, x) == Between(span.low, x - 1) + {x};
      InsertMembers(x, values);
      InsertAscends(x, values);
      values := Insert(x, values);
      x := x + 1;
    }
  }

  method ParseValueList(text: string, max: U8) returns (r: Option<seq<U8>>)
    ensures Parses(text, max, r)
  {
    if text == "" {
      return None;
    }
    var parts, values: seq<U8>, i := Split(text), [], 0;
    ghost var spans: seq<Span> := [];
    assert parts[0..] == parts;
    assert ReadParts(parts, max).Some? ==> [] + ReadParts(parts, max).value == ReadParts(parts, max).value;
    while i < |parts|
      invariant i <= |parts| && Ascending(values) && Members(values) == Covered(spans)
      invariant ReadParts(parts, max) == Prefixed(spans, ReadParts(parts[i..], max))
    {
      assert parts[i..][0] == parts[i] && parts[i..][1..] == parts[i + 1..];
      var span := ReadPart(parts[i], max);
      if span.None? {
        return None;
      }
      CoveredMore(spans, span.value);
      PrefixedMore(spans, span.value, ReadParts(parts[i + 1..], max));
      values := AddSpan(values, span.value);
      spans := spans + [span.value];
      i := i + 1;
    }
    assert spans + [] == spans;
    r := Some(values);
  }

  ghost function Prefixed(spans: seq<Span>, rest: Option<seq<Span>>): Option<seq<Span>> {
    if rest.None? then None else Some(spans + rest.value)
  }

  lemma PrefixedMore(spans: seq<Span>, s: Span, rest: Option<seq<Span>>)
    ensures Prefixed(spans, Prefixed([s], rest)) == Prefixed(spans + [s], rest)
  {
    if rest.Some? {
      Assoc(spans, [s], rest.value);
    }
  }

  /** One more than a value that is not the largest. */
  function Next(x: U8): U8
    requires x < 255
  {
    x + 1
  }

  /** The run that starts at an index, and the index of its last value. */
  method TakeRun(sorted: seq<U8>, first: nat) returns (span: Span, last: nat)
    requires Ascending(sorted) && first < |sorted|
    ensures first <= last < |sorted| && span == Span(sorted[first], sorted[last])
    ensures span.high - span.low == last - first
    ensures last + 1 < |sorted| ==> span.high + 1 < sorted[last + 1]
  {
    last := first;
    var start, end := sorted[first], sorted[first];
    while last + 1 < |sorted| && sorted[last + 1] == Next(end)
      invariant first <= last < |sorted| && end == sorted[last]
      invariant last + 1 < |sorted| ==> end < sorted[last + 1]
      invariant end - start == last - first
      decreases |sorted| - last
    {
      last := last + 1;
      end := sorted[last];
    }
    span := Span(start, end);
  }

  lemma {:induction false} RunMembers(sorted: seq<U8>, first: nat, last: nat)
    requires Ascending(sorted) && first <= last < |sorted| && sorted[last] - sorted[first] == last - first
    ensures Members(sorted[..last + 1]) == Members(sorted[..first]) + Between(sorted[first], sorted[last])
    decreases last
  {
    assert sorted[..last + 1] == sorted[..last] + [sorted[last]];
    if first < last {
      Close(sorted, first, last - 1);
      RunMembers(sorted, first, last - 1);
    }
  }

  /** Ascending values climb at least as fast as their indices. */
  lemma Close(sorted: seq<U8>, first: nat, last: nat)
    requires Ascending(sorted) && first <= last < |sorted|
    requires last + 1 < |sorted| && sorted[last + 1] - sorted[first] == last + 1 - first
    ensures sorted[last] - sorted[first] == last - first
  {
    Climbs(sorted, first, last);
  }

  lemma {:induction false} Climbs(sorted: seq<U8>, first: nat, last: nat)
    requires Ascending(sorted) && first <= last < |sorted|
    ensures sorted[last] - sorted[first] >= last - first
    decreases last
  {
    if first < last {
      Climbs(sorted, first, last - 1);
    }
  }

  lemma MaximalMore(spans: seq<Span>, s: Span)
    requires Maximal(spans) && s.low <= s.high && (spans != [] ==> spans[|spans| - 1].high + 1 < s.low)
    ensures Maximal(spans + [s])
  {
    forall i | 0 <= i < |spans| ensures spans[i].high + 1 < s.low {
      if i < |spans| - 1 { assert spans[|spans| - 1] in spans; }
    }
  }

  /** The values before an index are covered by maximal runs. */
  ghost predicate Grouped(sorted: seq<U8>, index: nat, spans: seq<Span>) {
    index <= |sorted| && Maximal(spans) && Covered(spans) == Members(sorted[..index]) &&
    (spans != [] && index < |sorted| ==> spans[|spans| - 1].high + 1 < sorted[index])
  }

  lemma GroupedNext(sorted: seq<U8>, index: nat, spans: seq<Span>, span: Span, last: nat)
    requires Ascending(sorted) && Grouped(sorted, index, spans)
    requires index <= last < |sorted| && span == Span(sorted[index], sorted[last])
    requires span.high - span.low == last - index
    requires last + 1 < |sorted| ==> span.high + 1 < sorted[last + 1]
    ensures Grouped(sorted, last + 1, spans + [span])
  {
    RunMembers(sorted, index, last);
    CoveredMore(spans, span);
    MaximalMore(spans, span);
  }

  method FormatValueList(values: seq<U8>) returns (text: string)
    ensures Prints(values, text)
  {
    var sorted := SortDedup(values);
    SortDedupIs(values);
    var parts: seq<string>, index := [], 0;
    ghost var spans: seq<Span> := [];
    while index < |sorted|
      invariant parts == PartTexts(spans) && Grouped(sorted, index, spans)
    {
      var span, last := TakeRun(sorted, index);
      GroupedNext(sorted, index, spans, span, last);
      PartTextsMore(spans, span);
      parts := parts + [PartText(span)];
      spans := spans + [span];
      index := last + 1;
    }
    assert sorted[..index] == sorted;
    assert Formats(values, spans);
    text := Join(parts);
  }

  lemma {:induction false} PartTextsMore(spans: seq<Span>, s: Span)
    ensures PartTexts(spans + [s]) == PartTexts(spans) + [PartText(s)]
  {
    if spans == [] {
      assert spans + [s] == [s];
    } else {
      PartTextsMore(spans[1..], s);
      assert (spans + [s])[1..] == spans[1..] + [s];
    }
  }

  method ParseFormatted(values: seq<U8>, max: U8) returns (r: Option<seq<U8>>)
    ensures r == Some(SortDedup(values)) <==> values != [] && forall x <- values :: x <= max
  {
    var text := FormatValueList(values);
    r := ParseValueList(text, max);
    RoundTripIff(values, text, max, r);
  }
}
