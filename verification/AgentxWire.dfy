/**
 * The AgentX wire format of section 5 of RFC 2741 (hemlock-orch, agentx.rs): big-endian
 * words, object identifiers and search ranges, with the decoder of retrieval requests.
 */
module AgentxWire {
  import opened Basics

  type Byte = x: int | 0 <= x < 0x100
  type U16 = x: int | 0 <= x < 0x1_0000
  type U32 = x: int | 0 <= x < 0x1_0000_0000
  type Bytes = seq<Byte>
  type Oid = seq<U32>

  // ---------------------------------------------------------------- words

  function Word16(x: U16): Bytes {
    [x / 0x100, x % 0x100]
  }

  function Word32(x: U32): Bytes {
    [x / 0x100 / 0x100 / 0x100, x / 0x100 / 0x100 % 0x100, x / 0x100 % 0x100, x % 0x100]
  }

  function Value16(a: Byte, b: Byte): U16 {
    a * 0x100 + b
  }

  function Value32(a: Byte, b: Byte, c: Byte, d: Byte): U32 {
    ((a * 0x100 + b) * 0x100 + c) * 0x100 + d
  }

  /** What a reader took, and what it left; `None` when the bytes ran out. */
  type Read<T> = Option<(T, Bytes)>

  function Read16(s: Bytes): Read<U16> {
    if |s| < 2 then None else Some((Value16(s[0], s[1]), s[2..]))
  }

  function Read32(s: Bytes): Read<U32> {
    if |s| < 4 then None else Some((Value32(s[0], s[1], s[2], s[3]), s[4..]))
  }

  lemma Digit(high: nat, low: Byte)
    ensures (high * 0x100 + low) / 0x100 == high && (high * 0x100 + low) % 0x100 == low
  {
  }

  lemma Digits(a: Byte, b: Byte, c: Byte, d: Byte)
    ensures Word32(Value32(a, b, c, d)) == [a, b, c, d]
  {
    Digit((a * 0x100 + b) * 0x100 + c, d);
    Digit(a * 0x100 + b, c);
    Digit(a, b);
  }

  lemma WordValue(x: U32)
    ensures Value32(Word32(x)[0], Word32(x)[1], Word32(x)[2], Word32(x)[3]) == x
  {
  }

  lemma WordIff16(s: Bytes, x: U16, rest: Bytes)
    ensures Read16(s) == Some((x, rest)) <==> s == Word16(x) + rest
  {
    if s == Word16(x) + rest {
      assert s[2..] == rest;
    }
    if |s| >= 2 {
      assert s == [s[0], s[1]] + s[2..];
      assert Word16(Value16(s[0], s[1])) == [s[0], s[1]];
    }
  }

  lemma WordIff32(s: Bytes, x: U32, rest: Bytes)
    ensures Read32(s) == Some((x, rest)) <==> s == Word32(x) + rest
  {
    if s == Word32(x) + rest {
      assert s[4..] == rest;
      WordValue(x);
    }
    if |s| >= 4 {
      assert s == [s[0], s[1], s[2], s[3]] + s[4..];
      Digits(s[0], s[1], s[2], s[3]);
    }
  }

  function Words(oid: Oid): (r: Bytes)
    ensures |r| == 4 * |oid|
  {
    if oid == [] then [] else Word32(oid[0]) + Words(oid[1..])
  }

  function ReadWords(n: nat, s: Bytes): Read<Oid>
    decreases n
  {
    if n == 0 then Some(([], s)) else
      var head := Read32(s);
      if head.None? then None else
        var tail := ReadWords(n - 1, head.value.1);
        if tail.None? then None else Some(([head.value.0] + tail.value.0, tail.value.1))
  }

  lemma {:induction false} WordsIff(n: nat, s: Bytes, oid: Oid, rest: Bytes)
    ensures ReadWords(n, s) == Some((oid, rest)) <==> |oid| == n && s == Words(oid) + rest
    decreases n
  {
    if n == 0 {
      if |oid| == 0 { Unit(rest); }
    } else {
      if oid != [] && s == Words(oid) + rest {
        Assoc(Word32(oid[0]), Words(oid[1..]), rest);
        WordIff32(s, oid[0], Words(oid[1..]) + rest);
        WordsIff(n - 1, Words(oid[1..]) + rest, oid[1..], rest);
        assert oid == [oid[0]] + oid[1..];
      }
      if ReadWords(n, s) == Some((oid, rest)) {
        var head := Read32(s).value;
        assert oid[0] == head.0 && ReadWords(n - 1, head.1).value.0 == oid[1..];
        WordIff32(s, head.0, head.1);
        WordsIff(n - 1, head.1, oid[1..], rest);
        Assoc(Word32(head.0), Words(oid[1..]), rest);
      }
    }
  }

  // ---------------------------------------------------------------- object identifiers

  /** Everything an identifier says on the wire. */
  datatype Wire = Wire(prefix: Byte, inclusive: Byte, reserved: Byte, subs: Oid)

  /** Its length is one byte. */
  predicate Fits(oid: Oid) {
    |oid| <= 255
  }

  function Sent(w: Wire): Bytes
    requires Fits(w.subs)
  {
    [|w.subs|, w.prefix, w.inclusive, w.reserved] + Words(w.subs)
  }

  function ReadWire(s: Bytes): Read<Wire> {
    if |s| < 4 then None else
      var subs := ReadWords(s[0], s[4..]);
      if subs.None? then None else Some((Wire(s[1], s[2], s[3], subs.value.0), subs.value.1))
  }

  lemma WireIff(s: Bytes, w: Wire, rest: Bytes)
    requires Fits(w.subs)
    ensures ReadWire(s) == Some((w, rest)) <==> s == Sent(w) + rest
  {
    var head: Bytes := [|w.subs|, w.prefix, w.inclusive, w.reserved];
    Assoc(head, Words(w.subs), rest);
    if s == Sent(w) + rest {
      assert s[4..] == Words(w.subs) + rest;
    }
    if |s| >= 4 {
      WordsIff(s[0], s[4..], w.subs, rest);
      assert s == [s[0], s[1], s[2], s[3]] + s[4..];
    }
  }

  lemma WireFits(s: Bytes)
    requires ReadWire(s).Some?
    ensures Fits(ReadWire(s).value.0.subs) && |ReadWire(s).value.1| < |s|
  {
    var read := ReadWords(s[0], s[4..]).value;
    WordsIff(s[0], s[4..], read.0, read.1);
  }

  /** The identifier meant: a prefix stands for 1.3.6.1 and itself. */
  function Meant(w: Wire): Oid {
    (if w.prefix != 0 then [1, 3, 6, 1, w.prefix] else []) + w.subs
  }

  /** The sender spells every sub-identifier out, up to what the length byte can say. */
  function Spelled(oid: Oid, inclusive: bool): (w: Wire)
    ensures Fits(w.subs)
  {
    Wire(0, if inclusive then 1 else 0, 0, if Fits(oid) then oid else oid[..255])
  }

  function OidBytes(oid: Oid, inclusive: bool): Bytes {
    Sent(Spelled(oid, inclusive))
  }

  lemma SpelledMeans(oid: Oid, inclusive: bool)
    ensures Meant(Spelled(oid, inclusive)) == oid <==> Fits(oid)
  {
    Unit(Spelled(oid, inclusive).subs);
  }

  // ---------------------------------------------------------------- search ranges

  datatype SearchRange = SearchRange(start: Oid, inclusive: bool, end: Oid)

  datatype Pair = Pair(start: Wire, end: Wire)

  predicate PairFits(p: Pair) {
    Fits(p.start.subs) && Fits(p.end.subs)
  }

  predicate PairsFit(pairs: seq<Pair>) {
    forall p <- pairs :: PairFits(p)
  }

  function PairBytes(p: Pair): Bytes
    requires PairFits(p)
  {
    Sent(p.start) + Sent(p.end)
  }

  function PairsBytes(pairs: seq<Pair>): Bytes
    requires PairsFit(pairs)
  {
    if pairs == [] then [] else PairBytes(pairs[0]) + PairsBytes(pairs[1..])
  }

  function RangeOf(p: Pair): SearchRange {
    SearchRange(Meant(p.start), p.start.inclusive != 0, Meant(p.end))
  }

  function RangesOf(pairs: seq<Pair>): seq<SearchRange> {
    if pairs == [] then [] else [RangeOf(pairs[0])] + RangesOf(pairs[1..])
  }

  function ReadPair(s: Bytes): (r: Read<Pair>)
    ensures r.Some? ==> PairFits(r.value.0) && |r.value.1| < |s|
  {
    var start := ReadWire(s);
    if start.None? then None else
      WireFits(s);
      var end := ReadWire(start.value.1);
      if end.None? then None else
        WireFits(start.value.1);
        Some((Pair(start.value.0, end.value.0), end.value.1))
  }

  /** A payload is read to its end or not at all. */
  function ReadPairs(s: Bytes): Option<seq<Pair>>
    decreases |s|
  {
    if s == [] then Some([]) else
      var pair := ReadPair(s);
      if pair.None? then None else
        var more := ReadPairs(pair.value.1);
        if more.None? then None else Some([pair.value.0] + more.value)
  }

  lemma PairIff(s: Bytes, p: Pair, rest: Bytes)
    requires PairFits(p)
    ensures ReadPair(s) == Some((p, rest)) <==> s == PairBytes(p) + rest
  {
    Assoc(Sent(p.start), Sent(p.end), rest);
    WireIff(s, p.start, Sent(p.end) + rest);
    WireIff(Sent(p.end) + rest, p.end, rest);
    if ReadPair(s) == Some((p, rest)) {
      var middle := ReadWire(s).value.1;
      WireIff(s, p.start, middle);
      WireIff(middle, p.end, rest);
    }
  }

  /** The decoder accepts exactly the serializations of pairs of identifiers, and gives those pairs. */
  lemma {:induction false} PairsIff(s: Bytes, pairs: seq<Pair>)
    ensures ReadPairs(s) == Some(pairs) <==> PairsFit(pairs) && s == PairsBytes(pairs)
    decreases |s| + |pairs|
  {
    if s != [] && ReadPairs(s) == Some(pairs) {
      var read := ReadPair(s).value;
      assert pairs[0] == read.0 && pairs[1..] == ReadPairs(read.1).value;
      PairIff(s, read.0, read.1);
      PairsIff(read.1, pairs[1..]);
      assert forall p <- pairs :: p == pairs[0] || p in pairs[1..];
    }
    if pairs != [] && PairsFit(pairs) && s == PairsBytes(pairs) {
      var rest := PairsBytes(pairs[1..]);
      PairIff(s, pairs[0], rest);
      PairsIff(rest, pairs[1..]);
      assert pairs == [pairs[0]] + pairs[1..];
    }
  }

  // ---------------------------------------------------------------- requests

  datatype Request = Request(nonRepeaters: U16, maxRepetitions: U16, ranges: seq<SearchRange>)

  function ReadRanges(s: Bytes): Option<seq<SearchRange>> {
    var pairs := ReadPairs(s);
    if pairs.None? then None else Some(RangesOf(pairs.value))
  }

  /** A bulk request opens with its two repetition counts. */
  function ParseRequest(bulk: bool, payload: Bytes): Option<Request> {
    if bulk then
      var first := Read16(payload);
      if first.None? then None else
        var second := Read16(first.value.1);
        if second.None? then None else
          var ranges := ReadRanges(second.value.1);
          if ranges.None? then None else Some(Request(first.value.0, second.value.0, ranges.value))
    else
      var ranges := ReadRanges(payload);
      if ranges.None? then None else Some(Request(0, 0, ranges.value))
  }

  /** What a request may look like on the wire. */
  ghost predicate Serializes(bulk: bool, payload: Bytes, r: Request, pairs: seq<Pair>) {
    PairsFit(pairs) && RangesOf(pairs) == r.ranges &&
    if bulk then payload == Word16(r.nonRepeaters) + (Word16(r.maxRepetitions) + PairsBytes(pairs))
    else r.nonRepeaters == 0 && r.maxRepetitions == 0 && payload == PairsBytes(pairs)
  }

  /** A payload parses as a request exactly when it is a serialization of it, nothing left over. */
  lemma RequestIff(bulk: bool, payload: Bytes, r: Request)
    ensures ParseRequest(bulk, payload) == Some(r) <==> exists pairs :: Serializes(bulk, payload, r, pairs)
  {
    if ParseRequest(bulk, payload) == Some(r) {
      RequestSent(bulk, payload, r);
    }
    if pairs :| Serializes(bulk, payload, r, pairs) {
      PairsIff(PairsBytes(pairs), pairs);
      if bulk {
        var tail := Word16(r.maxRepetitions) + PairsBytes(pairs);
        WordIff16(payload, r.nonRepeaters, tail);
        WordIff16(tail, r.maxRepetitions, PairsBytes(pairs));
      }
    }
  }

  lemma RequestSent(bulk: bool, payload: Bytes, r: Request)
    requires ParseRequest(bulk, payload) == Some(r)
    ensures exists pairs :: Serializes(bulk, payload, r, pairs)
  {
    if bulk {
      var first := Read16(payload).value;
      var second := Read16(first.1).value;
      WordIff16(payload, first.0, first.1);
      WordIff16(first.1, second.0, second.1);
      var pairs := ReadPairs(second.1).value;
      PairsIff(second.1, pairs);
      assert Serializes(bulk, payload, r, pairs);
    } else {
      var pairs := ReadPairs(payload).value;
      PairsIff(payload, pairs);
      assert Serializes(bulk, payload, r, pairs);
    }
  }

  // ---------------------------------------------------------------- round trip

  function RangeBytes(r: SearchRange): Bytes {
    OidBytes(r.start, r.inclusive) + OidBytes(r.end, false)
  }

  function RangesBytes(ranges: seq<SearchRange>): Bytes {
    if ranges == [] then [] else RangeBytes(ranges[0]) + RangesBytes(ranges[1..])
  }

  function SpelledPair(r: SearchRange): (p: Pair)
    ensures PairFits(p)
  {
    Pair(Spelled(r.start, r.inclusive), Spelled(r.end, false))
  }

  function SpelledPairs(ranges: seq<SearchRange>): (pairs: seq<Pair>)
    ensures PairsFit(pairs)
  {
    if ranges == [] then [] else [SpelledPair(ranges[0])] + SpelledPairs(ranges[1..])
  }

  lemma {:induction false} RangesSent(ranges: seq<SearchRange>)
    ensures RangesBytes(ranges) == PairsBytes(SpelledPairs(ranges))
  {
    if ranges != [] {
      RangesSent(ranges[1..]);
      assert SpelledPairs(ranges)[1..] == SpelledPairs(ranges[1..]);
    }
  }

  lemma {:induction false} SpelledRanges(ranges: seq<SearchRange>)
    ensures RangesOf(SpelledPairs(ranges)) == ranges <==> forall r <- ranges :: Fits(r.start) && Fits(r.end)
  {
    if ranges != [] {
      var head, tail := ranges[0], ranges[1..];
      SpelledRanges(tail);
      SpelledMeans(head.start, head.inclusive);
      SpelledMeans(head.end, false);
      assert SpelledPairs(ranges)[1..] == SpelledPairs(tail);
      assert ranges == [head] + tail;
      assert RangesOf(SpelledPairs(ranges)) == [RangeOf(SpelledPair(head))] + RangesOf(SpelledPairs(tail));
      assert RangesOf(SpelledPairs(ranges)) == ranges <==>
        RangeOf(SpelledPair(head)) == head && RangesOf(SpelledPairs(tail)) == tail by {
        var out := RangesOf(SpelledPairs(ranges));
        assert out[0] == RangeOf(SpelledPair(head)) && out[1..] == RangesOf(SpelledPairs(tail));
      }
    }
  }

  /** Encoded ranges decode to themselves exactly when no identifier has more than 255 sub-identifiers. */
  lemma RangesRoundTripIff(ranges: seq<SearchRange>)
    ensures ReadRanges(RangesBytes(ranges)) == Some(ranges) <==> forall r <- ranges :: Fits(r.start) && Fits(r.end)
  {
    RangesSent(ranges);
    PairsIff(RangesBytes(ranges), SpelledPairs(ranges));
    SpelledRanges(ranges);
  }

  // ---------------------------------------------------------------- the writer and the reader

  /** Appends one identifier. */
  method PushOid(out: Bytes, oid: Oid, inclusive: bool) returns (r: Bytes)
    ensures r == out + OidBytes(oid, inclusive)
  {
    var count := if |oid| <= 255 then |oid| else 255;
    r := out + [count, 0, if inclusive then 1 else 0, 0];
    ghost var head := r;
    ghost var subs := Spelled(oid, inclusive).subs;
    var i := 0;
    while i < count
      invariant i <= count && r + Words(subs[i..]) == head + Words(subs)
    {
      assert subs[i..][0] == oid[i] && subs[i..][1..] == subs[i + 1..];
      Assoc(r, Word32(oid[i]), Words(subs[i + 1..]));
      r := r + Word32(oid[i]);
      i := i + 1;
    }
    assert r == head + Words(subs);
    Assoc(out, [count, 0, if inclusive then 1 else 0, 0], Words(subs));
  }

  class Reader {
    const bytes: Bytes
    var at: nat

    constructor (bytes: Bytes)
      ensures this.bytes == bytes && at == 0
    {
      this.bytes := bytes;
      at := 0;
    }

    predicate Valid()
      reads this
    {
      at <= |bytes|
    }

    function Rest(): Bytes
      requires Valid()
      reads this
    {
      bytes[at..]
    }

    method TakeByte() returns (r: Option<Byte>)
      requires Valid()
      modifies this`at
      ensures Valid()
      ensures r.Some? <==> old(Rest()) != []
      ensures r.Some? ==> old(Rest()) == [r.value] + Rest()
    {
      if at < |bytes| {
        r := Some(bytes[at]);
        at := at + 1;
      } else {
        r := None;
      }
    }

    method Take16() returns (r: Option<U16>)
      requires Valid()
      modifies this`at
      ensures Valid()
      ensures Read16(old(Rest())) == if r.Some? then Some((r.value, Rest())) else None
    {
      if at + 2 <= |bytes| {
        r := Some(Value16(bytes[at], bytes[at + 1]));
        at := at + 2;
      } else {
        r := None;
      }
    }

    method Take32() returns (r: Option<U32>)
      requires Valid()
      modifies this`at
      ensures Valid()
      ensures Read32(old(Rest())) == if r.Some? then Some((r.value, Rest())) else None
    {
      if at + 4 <= |bytes| {
        r := Some(Value32(bytes[at], bytes[at + 1], bytes[at + 2], bytes[at + 3]));
        at := at + 4;
      } else {
        r := None;
      }
    }

    /** The sub-identifiers, after what the prefix stands for. */
    method TakeWords(count: nat, before: Oid) returns (oid: Option<Oid>)
      requires Valid()
      modifies this`at
      ensures Valid()
      ensures var read := ReadWords(count, old(Rest()));
        oid.Some? == read.Some? && (oid.Some? ==> oid.value == before + read.value.0 && Rest() == read.value.1)
    {
      var all, i := before, 0;
      ghost var start := Rest();
      while i < count
        invariant i <= count && Valid()
        invariant Taken(count, start, before, count - i, Rest(), all)
      {
        ghost var rest, left := Rest(), count - i;
        var word := Take32();
        TakenNext(count, start, before, left, rest, all);
        if word.None? {
          return None;
        }
        all := all + [word.value];
        i := i + 1;
      }
      oid := Some(all);
    }

    method TakeOid() returns (r: Option<(Oid, bool)>)
      requires Valid()
      modifies this`at
      ensures Valid()
      ensures var read := ReadWire(old(Rest()));
        r.Some? == read.Some? &&
        (r.Some? ==> r.value == (Meant(read.value.0), read.value.0.inclusive != 0) && Rest() == read.value.1)
    {
      ghost var start := Rest();
      var count := TakeByte();
      if count.None? { return None; }
      var prefix := TakeByte();
      if prefix.None? { return None; }
      var inclusive := TakeByte();
      if inclusive.None? { return None; }
      var reserved := TakeByte();
      if reserved.None? { return None; }
      assert start == [count.value, prefix.value, inclusive.value, reserved.value] + Rest();
      assert start[4..] == Rest();
      var head: Oid := [];
      if prefix.value != 0 {
        head := [1, 3, 6, 1, prefix.value];
      }
      var oid := TakeWords(count.value, head);
      if oid.None? { return None; }
      r := Some((oid.value, inclusive.value != 0));
    }
  }

  /** Progress of the word loop: what it will return is settled by what is left to read. */
  ghost predicate Taken(count: nat, start: Bytes, before: Oid, left: nat, rest: Bytes, all: Oid) {
    var whole, tail := ReadWords(count, start), ReadWords(left, rest);
    whole.Some? == tail.Some? &&
    (whole.Some? ==> before + whole.value.0 == all + tail.value.0 && whole.value.1 == tail.value.1)
  }

  lemma TakenNext(count: nat, start: Bytes, before: Oid, left: nat, rest: Bytes, all: Oid)
    requires left > 0 && Taken(count, start, before, left, rest, all)
    ensures Read32(rest).None? ==> ReadWords(count, start).None?
    ensures Read32(rest).Some? ==>
      Taken(count, start, before, left - 1, Read32(rest).value.1, all + [Read32(rest).value.0])
  {
    if ReadWords(left, rest).Some? {
      var head := Read32(rest).value;
      Assoc(all, [head.0], ReadWords(left - 1, head.1).value.0);
    }
  }

  /** The search ranges of a whole payload. */
  method TakeRanges(reader: Reader) returns (r: Option<seq<SearchRange>>)
    requires reader.Valid()
    modifies reader
    ensures r == ReadRanges(old(reader.Rest()))
  {
    var ranges: seq<SearchRange> := [];
    ghost var start := reader.Rest();
    while reader.at < |reader.bytes|
      invariant reader.Valid()
      invariant Gathered(start, ranges, reader.Rest())
      decreases |reader.bytes| - reader.at
    {
      ghost var rest := reader.Rest();
      GatheredNext(start, ranges, rest);
      var from := reader.TakeOid();
      if from.None? { return None; }
      var to := reader.TakeOid();
      if to.None? { return None; }
      ranges := ranges + [SearchRange(from.value.0, from.value.1, to.value.0)];
    }
    assert reader.Rest() == [];
    Unit(ranges);
    r := Some(ranges);
  }

  ghost predicate Gathered(start: Bytes, ranges: seq<SearchRange>, rest: Bytes) {
    var whole, tail := ReadRanges(start), ReadRanges(rest);
    whole.Some? == tail.Some? && (whole.Some? ==> whole.value == ranges + tail.value)
  }

  lemma GatheredNext(start: Bytes, ranges: seq<SearchRange>, rest: Bytes)
    requires rest != [] && Gathered(start, ranges, rest)
    ensures ReadPair(rest).None? ==> ReadRanges(start).None?
    ensures ReadPair(rest).Some? ==>
      Gathered(start, ranges + [RangeOf(ReadPair(rest).value.0)], ReadPair(rest).value.1)
  {
    if ReadRanges(rest).Some? {
      var pair := ReadPair(rest).value;
      var more := ReadPairs(pair.1).value;
      assert ([pair.0] + more)[1..] == more;
      Assoc(ranges, [RangeOf(pair.0)], RangesOf(more));
    }
  }

  method DecodeRequest(bulk: bool, payload: Bytes) returns (r: Option<Request>)
    ensures r == ParseRequest(bulk, payload)
  {
    var reader := new Reader(payload);
    assert reader.Rest() == payload;
    var nonRepeaters: Option<U16>, maxRepetitions: Option<U16> := Some(0), Some(0);
    if bulk {
      nonRepeaters := reader.Take16();
      if nonRepeaters.None? { return None; }
      maxRepetitions := reader.Take16();
      if maxRepetitions.None? { return None; }
    }
    var ranges := TakeRanges(reader);
    if ranges.None? { return None; }
    r := Some(Request(nonRepeaters.value, maxRepetitions.value, ranges.value));
  }
}
