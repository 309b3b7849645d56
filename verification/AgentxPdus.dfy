/**
 * AgentX PDUs of section 6 of RFC 2741 (hemlock-orch, agentx.rs): the header every PDU
 * carries and the variable bindings of a response, with a reference decoder for the latter.
 */
module AgentxPdus {
  import opened Basics
  import opened AgentxWire

  const VERSION: Byte := 1
  const NETWORK_BYTE_ORDER: Byte := 0x10
  const HEADER_LEN := 20
  const WORD_MAX: U32 := 0xFFFF_FFFF

  // ---------------------------------------------------------------- types of PDU

  datatype PduType =
    | Open | Close | Register | Unregister | GetOne | GetNext | GetBulk
    | TestSet | CommitSet | UndoSet | CleanupSet | Notify | Ping | Response
    | Other(code: Byte)

  function Code(t: PduType): Byte {
    match t
    case Open => 1
    case Close => 2
    case Register => 3
    case Unregister => 4
    case GetOne => 5
    case GetNext => 6
    case GetBulk => 7
    case TestSet => 8
    case CommitSet => 9
    case UndoSet => 10
    case CleanupSet => 11
    case Notify => 12
    case Ping => 13
    case Response => 18
    case Other(code) => code
  }

  function FromCode(code: Byte): PduType {
    match code
    case 1 => Open
    case 2 => Close
    case 3 => Register
    case 4 => Unregister
    case 5 => GetOne
    case 6 => GetNext
    case 7 => GetBulk
    case 8 => TestSet
    case 9 => CommitSet
    case 10 => UndoSet
    case 11 => CleanupSet
    case 12 => Notify
    case 13 => Ping
    case 18 => Response
    case other => Other(other)
  }

  /** The codes that have a name. */
  predicate Named(code: Byte) {
    1 <= code <= 13 || code == 18
  }

  /** Codes survive; types survive unless a named code hides in `Other`. */
  lemma CodesInvert(t: PduType, code: Byte)
    ensures Code(FromCode(code)) == code
    ensures FromCode(Code(t)) == t <==> !(t.Other? && Named(t.code))
  {
  }

  // ---------------------------------------------------------------- frames

  datatype Header = Header(pduType: PduType, flags: Byte, session: U32, transaction: U32, packet: U32, payloadLen: U32)

  /** A length, cut to what a word can say. */
  function Length32(n: nat): U32 {
    if n <= WORD_MAX then n else WORD_MAX
  }

  function HeaderBytes(h: Header): Bytes {
    [VERSION, Code(h.pduType), h.flags, 0] +
    (Word32(h.session) + (Word32(h.transaction) + (Word32(h.packet) + Word32(h.payloadLen))))
  }

  function Frame(t: PduType, session: U32, transaction: U32, packet: U32, payload: Bytes): Bytes {
    HeaderBytes(Header(t, NETWORK_BYTE_ORDER, session, transaction, packet, Length32(|payload|))) + payload
  }

  function WordAt(s: Bytes, at: nat): U32
    requires at + 4 <= |s|
  {
    Value32(s[at], s[at + 1], s[at + 2], s[at + 3])
  }

  function ParseHeader(s: Bytes): Option<Header> {
    if |s| < HEADER_LEN || s[0] != VERSION || s[2] / 0x10 % 2 == 0 then None
    else Some(Header(FromCode(s[1]), s[2], WordAt(s, 4), WordAt(s, 8), WordAt(s, 12), WordAt(s, 16)))
  }

  lemma WordIn(before: Bytes, x: U32, after: Bytes)
    ensures WordAt(before + (Word32(x) + after), |before|) == x
  {
    var s := before + (Word32(x) + after);
    assert s[|before|..] == Word32(x) + after;
    WordValue(x);
    assert forall k :: 0 <= k < 4 ==> s[|before| + k] == Word32(x)[k];
  }

  lemma HeaderWords(h: Header, payload: Bytes)
    ensures var s := HeaderBytes(h) + payload;
      |s| == HEADER_LEN + |payload| && s[HEADER_LEN..] == payload &&
      s[0] == VERSION && s[1] == Code(h.pduType) && s[2] == h.flags &&
      WordAt(s, 4) == h.session && WordAt(s, 8) == h.transaction &&
      WordAt(s, 12) == h.packet && WordAt(s, 16) == h.payloadLen
  {
    var s := HeaderBytes(h) + payload;
    var head: Bytes := [VERSION, Code(h.pduType), h.flags, 0];
    var one, two, three, four := Word32(h.session), Word32(h.transaction), Word32(h.packet), Word32(h.payloadLen);
    assert s == head + (one + (two + (three + (four + payload))));
    WordIn(head, h.session, two + (three + (four + payload)));
    assert s == (head + one) + (two + (three + (four + payload)));
    WordIn(head + one, h.transaction, three + (four + payload));
    assert s == (head + one + two) + (three + (four + payload));
    WordIn(head + one + two, h.packet, four + payload);
    assert s == (head + one + two + three) + (four + payload);
    WordIn(head + one + two + three, h.payloadLen, payload);
  }

  /** A framed PDU is a header and its payload, and the header read back states that payload. */
  lemma FrameHeader(t: PduType, session: U32, transaction: U32, packet: U32, payload: Bytes)
    ensures var s := Frame(t, session, transaction, packet, payload);
      && |s| == HEADER_LEN + |payload|
      && s[HEADER_LEN..] == payload
      && ParseHeader(s) ==
         Some(Header(FromCode(Code(t)), NETWORK_BYTE_ORDER, session, transaction, packet, Length32(|payload|)))
      && (ParseHeader(s).value.payloadLen == |payload| <==> |payload| < 0x1_0000_0000)
      && (ParseHeader(s).value.pduType == t <==> !(t.Other? && Named(t.code)))
  {
    HeaderWords(Header(t, NETWORK_BYTE_ORDER, session, transaction, packet, Length32(|payload|)), payload);
    CodesInvert(t, Code(t));
  }

  // ---------------------------------------------------------------- variable bindings

  type I32 = x: int | -0x8000_0000 <= x < 0x8000_0000
  type U64 = x: int | 0 <= x < 0x1_0000_0000_0000_0000

  datatype Value =
    | Integer(i: I32)
    | OctetString(octets: Bytes)
    | Counter32(count: U32)
    | Gauge32(level: U32)
    | TimeTicks(ticks: U32)
    | Counter64(wide: U64)
    | EndOfMibView
    | NoSuchInstance
    | NoSuchObject

  datatype VarBind = VarBind(name: Oid, value: Value)

  function Tag(v: Value): U16 {
    match v
    case Integer(_) => 2
    case OctetString(_) => 4
    case Counter32(_) => 65
    case Gauge32(_) => 66
    case TimeTicks(_) => 67
    case Counter64(_) => 70
    case NoSuchObject => 128
    case NoSuchInstance => 129
    case EndOfMibView => 130
  }

  /** Two's complement. */
  function Unsigned(i: I32): U32 {
    if i < 0 then i + 0x1_0000_0000 else i
  }

  function Signed(x: U32): I32 {
    if x >= 0x8000_0000 then x - 0x1_0000_0000 else x
  }

  function Word64(x: U64): Bytes {
    Word32(x / 0x1_0000_0000) + Word32(x % 0x1_0000_0000)
  }

  function Padding(n: nat): nat {
    (4 - n % 4) % 4
  }

  function Zeros(n: nat): (r: Bytes)
    ensures |r| == n
  {
    seq(n, _ => 0)
  }

  function Octets(octets: Bytes): Bytes {
    Word32(Length32(|octets|)) + (octets + Zeros(Padding(|octets|)))
  }

  function ValueBytes(v: Value): Bytes {
    match v
    case Integer(i) => Word32(Unsigned(i))
    case OctetString(octets) => Octets(octets)
    case Counter32(count) => Word32(count)
    case Gauge32(level) => Word32(level)
    case TimeTicks(ticks) => Word32(ticks)
    case Counter64(wide) => Word64(wide)
    case EndOfMibView => []
    case NoSuchInstance => []
    case NoSuchObject => []
  }

  function BindBytes(b: VarBind): Bytes {
    Word16(Tag(b.value)) + (Word16(0) + (OidBytes(b.name, false) + ValueBytes(b.value)))
  }

  function BindsBytes(binds: seq<VarBind>): Bytes {
    if binds == [] then [] else BindBytes(binds[0]) + BindsBytes(binds[1..])
  }

  // ---------------------------------------------------------------- the reference decoder

  function ReadOctets(s: Bytes): Read<Bytes> {
    var n := Read32(s);
    if n.None? || |n.value.1| < n.value.0 + Padding(n.value.0) then None
    else Some((n.value.1[..n.value.0], n.value.1[n.value.0 + Padding(n.value.0)..]))
  }

  function Read64(s: Bytes): Read<U64> {
    var high := Read32(s);
    if high.None? then None else
      var low := Read32(high.value.1);
      if low.None? then None else Some((high.value.0 * 0x1_0000_0000 + low.value.0, low.value.1))
  }

  function ReadNumber(tag: U16, s: Bytes): Read<Value> {
    var x := Read32(s);
    if x.None? then None
    else Some((
      if tag == 2 then Integer(Signed(x.value.0))
      else if tag == 65 then Counter32(x.value.0)
      else if tag == 66 then Gauge32(x.value.0)
      else TimeTicks(x.value.0), x.value.1))
  }

  function ReadValue(tag: U16, s: Bytes): Read<Value> {
    match tag
    case 2 => ReadNumber(tag, s)
    case 65 => ReadNumber(tag, s)
    case 66 => ReadNumber(tag, s)
    case 67 => ReadNumber(tag, s)
    case 4 =>
      var octets := ReadOctets(s);
      if octets.None? then None else Some((OctetString(octets.value.0), octets.value.1))
    case 70 =>
      var wide := Read64(s);
      if wide.None? then None else Some((Counter64(wide.value.0), wide.value.1))
    case 128 => Some((NoSuchObject, s))
    case 129 => Some((NoSuchInstance, s))
    case 130 => Some((EndOfMibView, s))
    case _ => None
  }

  function ReadBind(s: Bytes): Read<VarBind> {
    var tag := Read16(s);
    if tag.None? then None else
      var reserved := Read16(tag.value.1);
      if reserved.None? then None else
        var name := ReadWire(reserved.value.1);
        if name.None? then None else
          var value := ReadValue(tag.value.0, name.value.1);
          if value.None? then None else Some((VarBind(Meant(name.value.0), value.value.0), value.value.1))
  }

  function ReadBinds(s: Bytes, count: nat): Read<seq<VarBind>>
    decreases count
  {
    if count == 0 then Some(([], s)) else
      var head := ReadBind(s);
      if head.None? then None else
        var tail := ReadBinds(head.value.1, count - 1);
        if tail.None? then None else Some(([head.value.0] + tail.value.0, tail.value.1))
  }

  // ---------------------------------------------------------------- round trips

  predicate ValueFits(v: Value) {
    v.OctetString? ==> |v.octets| < 0x1_0000_0000
  }

  lemma OctetsRoundTripIff(octets: Bytes, rest: Bytes)
    ensures ReadOctets(Octets(octets) + rest) == Some((octets, rest)) <==> |octets| < 0x1_0000_0000
  {
    var n := Length32(|octets|);
    var body := octets + Zeros(Padding(|octets|));
    Assoc(Word32(n), body, rest);
    WordIff32(Octets(octets) + rest, n, body + rest);
    if |octets| < 0x1_0000_0000 {
      assert (body + rest)[..n] == octets;
      assert (body + rest)[n + Padding(n)..] == rest;
    }
  }

  lemma WideRoundTrip(x: U64, rest: Bytes)
    ensures Read64(Word64(x) + rest) == Some((x, rest))
  {
    var high, low := x / 0x1_0000_0000, x % 0x1_0000_0000;
    Assoc(Word32(high), Word32(low), rest);
    WordIff32(Word64(x) + rest, high, Word32(low) + rest);
    WordIff32(Word32(low) + rest, low, rest);
  }

  lemma NumberRoundTrip(v: Value, x: U32, rest: Bytes)
    requires v == Integer(Signed(x)) || v == Counter32(x) || v == Gauge32(x) || v == TimeTicks(x)
    ensures ReadValue(Tag(v), Word32(x) + rest) == Some((v, rest))
  {
    WordIff32(Word32(x) + rest, x, rest);
  }

  lemma ValueRoundTripIff(v: Value, rest: Bytes)
    ensures ReadValue(Tag(v), ValueBytes(v) + rest) == Some((v, rest)) <==> ValueFits(v)
  {
    match v
    case Integer(i) =>
      assert Signed(Unsigned(i)) == i;
      NumberRoundTrip(v, Unsigned(i), rest);
    case OctetString(octets) => OctetsRoundTripIff(octets, rest);
    case Counter32(count) => NumberRoundTrip(v, count, rest);
    case Gauge32(level) => NumberRoundTrip(v, level, rest);
    case TimeTicks(ticks) => NumberRoundTrip(v, ticks, rest);
    case Counter64(wide) => WideRoundTrip(wide, rest);
    case EndOfMibView => Unit(rest);
    case NoSuchInstance => Unit(rest);
    case NoSuchObject => Unit(rest);
  }

  /** Reading a binding up to its value. */
  lemma BindParts(b: VarBind, rest: Bytes)
    ensures var tail := ValueBytes(b.value) + rest;
      Read16(BindBytes(b) + rest) == Some((Tag(b.value), Word16(0) + (OidBytes(b.name, false) + tail))) &&
      Read16(Word16(0) + (OidBytes(b.name, false) + tail)) == Some((0, OidBytes(b.name, false) + tail)) &&
      ReadWire(OidBytes(b.name, false) + tail) == Some((Spelled(b.name, false), tail))
  {
    var oid, value := OidBytes(b.name, false), ValueBytes(b.value);
    Assoc(oid, value, rest);
    Assoc(Word16(0), oid + value, rest);
    Assoc(Word16(Tag(b.value)), Word16(0) + (oid + value), rest);
    WordIff16(BindBytes(b) + rest, Tag(b.value), Word16(0) + (oid + (value + rest)));
    WordIff16(Word16(0) + (oid + (value + rest)), 0, oid + (value + rest));
    WireIff(oid + (value + rest), Spelled(b.name, false), value + rest);
  }

  predicate BindFits(b: VarBind) {
    Fits(b.name) && ValueFits(b.value)
  }

  /** A binding decodes to itself exactly when its name and its octets fit their length fields. */
  lemma BindRoundTripIff(b: VarBind, rest: Bytes)
    ensures ReadBind(BindBytes(b) + rest) == Some((b, rest)) <==> BindFits(b)
  {
    BindParts(b, rest);
    SpelledMeans(b.name, false);
    ValueRoundTripIff(b.value, rest);
  }

  lemma ReadsNextIff(s: Bytes, head: VarBind, middle: Bytes, tail: seq<VarBind>, rest: Bytes)
    requires ReadBind(s) == Some((head, middle))
    ensures ReadBinds(s, |tail| + 1) == Some(([head] + tail, rest)) <==> ReadBinds(middle, |tail|) == Some((tail, rest))
  {
    var more := ReadBinds(middle, |tail|);
    if more.Some? {
      assert ([head] + more.value.0)[1..] == more.value.0 && ([head] + tail)[1..] == tail;
    }
  }

  lemma NextMisread(s: Bytes, binds: seq<VarBind>, rest: Bytes)
    requires binds != [] && (ReadBind(s).None? || ReadBind(s).value.0 != binds[0])
    ensures ReadBinds(s, |binds|) != Some((binds, rest))
  {
  }

  lemma BindReadsAs(b: VarBind, rest: Bytes)
    ensures ReadBind(BindBytes(b) + rest) ==
      match ReadValue(Tag(b.value), ValueBytes(b.value) + rest)
      case None => None
      case Some(v) => Some((VarBind(Meant(Spelled(b.name, false)), v.0), v.1))
  {
    BindParts(b, rest);
  }

  lemma ValueMisread(v: Value, rest: Bytes)
    requires !ValueFits(v)
    ensures var read := ReadValue(Tag(v), ValueBytes(v) + rest); read.None? || read.value.0 != v
  {
    OctetsMisread(v.octets, rest);
  }

  /** A binding that does not fit is read as another one, or not at all, whatever follows it. */
  lemma BindMisread(b: VarBind, rest: Bytes)
    requires !BindFits(b)
    ensures var read := ReadBind(BindBytes(b) + rest); read.None? || read.value.0 != b
  {
    BindReadsAs(b, rest);
    if Fits(b.name) {
      ValueMisread(b.value, rest);
    } else {
      SpelledMeans(b.name, false);
    }
  }

  lemma OctetsMisread(octets: Bytes, rest: Bytes)
    requires |octets| >= 0x1_0000_0000
    ensures var read := ReadOctets(Octets(octets) + rest); read.None? || read.value.0 != octets
  {
    var n := Length32(|octets|);
    var body := octets + Zeros(Padding(|octets|));
    Assoc(Word32(n), body, rest);
    WordIff32(Octets(octets) + rest, n, body + rest);
  }

  /** A list of bindings reads back, before any rest, exactly when all of them fit. */
  lemma {:induction false} BindsRoundTripIff(binds: seq<VarBind>, rest: Bytes)
    ensures ReadBinds(BindsBytes(binds) + rest, |binds|) == Some((binds, rest)) <==> forall b <- binds :: BindFits(b)
  {
    if binds == [] {
      Unit(rest);
    } else {
      var tail := BindsBytes(binds[1..]) + rest;
      Assoc(BindBytes(binds[0]), BindsBytes(binds[1..]), rest);
      BindsRoundTripIff(binds[1..], rest);
      assert binds == [binds[0]] + binds[1..];
      if BindFits(binds[0]) {
        BindRoundTripIff(binds[0], tail);
        ReadsNextIff(BindsBytes(binds) + rest, binds[0], tail, binds[1..], rest);
      } else {
        BindMisread(binds[0], tail);
        NextMisread(BindsBytes(binds) + rest, binds, rest);
      }
    }
  }

  // ---------------------------------------------------------------- whole PDUs

  predicate Aligned(s: Bytes) {
    |s| % 4 == 0
  }

  lemma SumAligned(a: Bytes, b: Bytes)
    requires Aligned(a) && Aligned(b)
    ensures Aligned(a + b)
  {
  }

  lemma ValueAligned(v: Value)
    ensures Aligned(ValueBytes(v))
  {
    if v.OctetString? {
      var body := v.octets + Zeros(Padding(|v.octets|));
      assert |body| == |v.octets| + Padding(|v.octets|);
      SumAligned(Word32(Length32(|v.octets|)), body);
    }
  }

  lemma OidAligned(oid: Oid)
    ensures Aligned(OidBytes(oid, false))
  {
    assert |OidBytes(oid, false)| == 4 * (1 + |Spelled(oid, false).subs|);
  }

  lemma BindAligned(b: VarBind)
    ensures Aligned(BindBytes(b))
  {
    OidAligned(b.name);
    ValueAligned(b.value);
    PartsAligned(Word16(Tag(b.value)), Word16(0), OidBytes(b.name, false), ValueBytes(b.value));
  }

  lemma PartsAligned(a: Bytes, b: Bytes, c: Bytes, d: Bytes)
    requires |a| + |b| == 4 && Aligned(c) && Aligned(d)
    ensures Aligned(a + (b + (c + d)))
  {
    SumAligned(c, d);
    assert |a + (b + (c + d))| == 4 + |c + d|;
  }

  lemma {:induction false} BindsAligned(binds: seq<VarBind>)
    ensures Aligned(BindsBytes(binds))
  {
    if binds != [] {
      BindAligned(binds[0]);
      BindsAligned(binds[1..]);
      SumAligned(BindBytes(binds[0]), BindsBytes(binds[1..]));
    }
  }

  function OpenPdu(packet: U32, id: Oid, description: Bytes): Bytes {
    Frame(Open, 0, 0, packet, [5, 0, 0, 0] + OidBytes(id, false) + Octets(description))
  }

  function RegisterPdu(session: U32, packet: U32, subtree: Oid, priority: Byte): Bytes {
    Frame(Register, session, 0, packet, [0, priority, 0, 0] + OidBytes(subtree, false))
  }

  function ResponsePdu(h: Header, error: U16, index: U16, binds: seq<VarBind>): Bytes {
    Frame(Response, h.session, h.transaction, h.packet, ResponsePayload(error, index, binds))
  }

  function ResponsePayload(error: U16, index: U16, binds: seq<VarBind>): Bytes {
    Word32(0) + (Word16(error) + (Word16(index) + BindsBytes(binds)))
  }

  /** A PDU that stays in step: whole words, of a type that reads back, as long as its header says. */
  predicate InStep(s: Bytes, t: PduType) {
    Aligned(s) && ParseHeader(s).Some? && ParseHeader(s).value.pduType == t &&
    (|s| < HEADER_LEN + 0x1_0000_0000 ==> ParseHeader(s).value.payloadLen == |s| - HEADER_LEN)
  }

  lemma FrameInStep(t: PduType, session: U32, transaction: U32, packet: U32, payload: Bytes)
    requires Aligned(payload) && !t.Other?
    ensures InStep(Frame(t, session, transaction, packet, payload), t)
  {
    FrameHeader(t, session, transaction, packet, payload);
    Steps(Frame(t, session, transaction, packet, payload), t, payload);
  }

  lemma Steps(s: Bytes, t: PduType, payload: Bytes)
    requires Aligned(payload) && |s| == HEADER_LEN + |payload|
    requires ParseHeader(s).Some? && ParseHeader(s).value.pduType == t
    requires ParseHeader(s).value.payloadLen == Length32(|payload|)
    ensures InStep(s, t)
  {
  }

  lemma OpenInStep(packet: U32, id: Oid, description: Bytes)
    ensures InStep(OpenPdu(packet, id, description), Open)
  {
    OidAligned(id);
    ValueAligned(OctetString(description));
    FrameInStep(Open, 0, 0, packet, [5, 0, 0, 0] + OidBytes(id, false) + Octets(description));
  }

  lemma RegisterInStep(session: U32, packet: U32, subtree: Oid, priority: Byte)
    ensures InStep(RegisterPdu(session, packet, subtree, priority), Register)
  {
    OidAligned(subtree);
    FrameInStep(Register, session, 0, packet, [0, priority, 0, 0] + OidBytes(subtree, false));
  }

  lemma ResponseInStep(h: Header, error: U16, index: U16, binds: seq<VarBind>)
    ensures InStep(ResponsePdu(h, error, index, binds), Response)
  {
    BindsAligned(binds);
    FrameInStep(Response, h.session, h.transaction, h.packet, ResponsePayload(error, index, binds));
  }

  /** A response answers the request it was built from, and its bindings read back. */
  lemma ResponseReads(h: Header, error: U16, index: U16, binds: seq<VarBind>)
    requires forall b <- binds :: BindFits(b)
    ensures var s := ResponsePdu(h, error, index, binds);
      |s| >= HEADER_LEN + 8 && ParseHeader(s).Some? &&
      ParseHeader(s).value.session == h.session && ParseHeader(s).value.transaction == h.transaction &&
      ParseHeader(s).value.packet == h.packet &&
      ReadBinds(s[HEADER_LEN..][8..], |binds|) == Some((binds, []))
  {
    FrameHeader(Response, h.session, h.transaction, h.packet, ResponsePayload(error, index, binds));
    PayloadBinds(error, index, binds);
  }

  lemma AfterCounts(a: Bytes, b: Bytes, c: Bytes, d: Bytes)
    requires |a| + |b| + |c| == 8
    ensures (a + (b + (c + d)))[8..] == d
  {
    assert a + (b + (c + d)) == (a + b + c) + d;
  }

  lemma PayloadBinds(error: U16, index: U16, binds: seq<VarBind>)
    requires forall b <- binds :: BindFits(b)
    ensures ReadBinds(ResponsePayload(error, index, binds)[8..], |binds|) == Some((binds, []))
  {
    AfterCounts(Word32(0), Word16(error), Word16(index), BindsBytes(binds));
    Unit(BindsBytes(binds));
    BindsRoundTripIff(binds, []);
  }

  // ---------------------------------------------------------------- the writers

  method PushVarbind(out: Bytes, b: VarBind) returns (r: Bytes)
    ensures r == out + BindBytes(b)
  {
    var head := out + Word16(Tag(b.value)) + Word16(0);
    r := PushOid(head, b.name, false);
    r := r + ValueBytes(b.value);
    assert r == out + BindBytes(b);
  }

  method BuildResponse(h: Header, error: U16, index: U16, binds: seq<VarBind>) returns (r: Bytes)
    ensures r == ResponsePdu(h, error, index, binds)
  {
    var payload := Word32(0) + (Word16(error) + Word16(index));
    ghost var head := payload;
    assert ResponsePayload(error, index, binds) == head + BindsBytes(binds) by {
      Assoc(Word16(error), Word16(index), BindsBytes(binds));
      Assoc(Word32(0), Word16(error) + Word16(index), BindsBytes(binds));
    }
    var i := 0;
    while i < |binds|
      invariant i <= |binds| && payload + BindsBytes(binds[i..]) == head + BindsBytes(binds)
    {
      assert binds[i..][0] == binds[i] && binds[i..][1..] == binds[i + 1..];
      Assoc(payload, BindBytes(binds[i]), BindsBytes(binds[i + 1..]));
      payload := PushVarbind(payload, binds[i]);
      i := i + 1;
    }
    Unit(payload);
    r := Frame(Response, h.session, h.transaction, h.packet, payload);
  }
}
