/**
 * Base64 decoding of section 4 of RFC 4648 (hemlock-common, cert.rs), where a 32-bit
 * accumulator is shifted and never masked.
 */
module Base64 {
  import opened Basics

  type Byte = x: int | 0 <= x < 256
  type Six = x: int | 0 <= x < 64

  const WORD := 0x1_0000_0000

  // ---------------------------------------------------------------- the alphabet

  function Letter(d: Six): char {
    if d < 26 then ('A' as int + d) as char
    else if d < 52 then ('a' as int + d - 26) as char
    else if d < 62 then ('0' as int + d - 52) as char
    else if d == 62 then '+'
    else '/'
  }

  function Position(c: char): Option<Six> {
    if 'A' <= c <= 'Z' then Some(c as int - 'A' as int)
    else if 'a' <= c <= 'z' then Some(c as int - 'a' as int + 26)
    else if '0' <= c <= '9' then Some(c as int - '0' as int + 52)
    else if c == '+' then Some(62)
    else if c == '/' then Some(63)
    else None
  }

  lemma AlphabetIff(c: char, d: Six)
    ensures Position(c) == Some(d) <==> c == Letter(d)
    ensures Position('=').None?
  {
  }

  // ---------------------------------------------------------------- numbers

  /** The number six-bit digits spell. */
  function Number64(ds: seq<Six>): nat {
    if ds == [] then 0 else 64 * Number64(ds[..|ds| - 1]) + ds[|ds| - 1]
  }

  function Number256(bs: seq<Byte>): nat {
    if bs == [] then 0 else 256 * Number256(bs[..|bs| - 1]) + bs[|bs| - 1]
  }

  lemma More64(ds: seq<Six>, d: Six)
    ensures Number64(ds + [d]) == 64 * Number64(ds) + d
  {
    assert (ds + [d])[..|ds|] == ds;
  }

  lemma More256(bs: seq<Byte>, b: Byte)
    ensures Number256(bs + [b]) == 256 * Number256(bs) + b
  {
    assert (bs + [b])[..|bs|] == bs;
  }

  /** As many bytes spell the same number in one way only. */
  lemma {:induction false} BytesUnique(a: seq<Byte>, b: seq<Byte>)
    requires |a| == |b| && Number256(a) == Number256(b)
    ensures a == b
  {
    if a != [] {
      var n := |a| - 1;
      BytesUnique(a[..n], b[..n]);
      assert a == a[..n] + [a[n]] && b == b[..n] + [b[n]];
    }
  }

  // ---------------------------------------------------------------- what decoding means

  lemma Powers()
    ensures Power(0) == 1 && Power(2) == 4 && Power(4) == 16 && Power(6) == 64
  {
  }

  /** The bytes are the digits' bits, eight by eight, less an incomplete byte. */
  predicate Packs(ds: seq<Six>, bs: seq<Byte>) {
    var bits := 6 * |ds| - 8 * |bs|;
    bits in {0, 2, 4, 6} && Number64(ds) / Power(bits) == Number256(bs)
  }

  lemma PacksUnique(ds: seq<Six>, a: seq<Byte>, b: seq<Byte>)
    requires Packs(ds, a) && Packs(ds, b)
    ensures a == b
  {
    BytesUnique(a, b);
  }

  /** Text up to the first padding sign. */
  function Body(text: string): string {
    if text == "" || text[0] == '=' then "" else [text[0]] + Body(text[1..])
  }

  predicate Clean(text: string) {
    forall c <- text :: Position(c).Some?
  }

  function Digits(text: string): (ds: seq<Six>)
    requires Clean(text)
    ensures |ds| == |text|
  {
    if text == "" then [] else [Position(text[0]).value] + Digits(text[1..])
  }

  predicate Decodes(text: string, r: Option<seq<Byte>>) {
    if Clean(Body(text)) then r.Some? && Packs(Digits(Body(text)), r.value) else r.None?
  }

  // ---------------------------------------------------------------- one step of the accumulator

  /** `(accumulator << 6) | value` in 32 bits. */
  function Shifted(acc: nat, d: Six): nat {
    acc * 64 % WORD + d
  }

  /** `accumulator >> bits`, cut to a byte. */
  function Taken(acc: nat, bits: nat): Byte {
    acc / Power(bits) % 256
  }

  lemma ShiftedKeeps(n: nat, d: Six)
    ensures Shifted(n % WORD, d) == (64 * n + d) % WORD
  {
    var q, r := n / WORD, n % WORD;
    assert n == WORD * q + r;
    var s := 64 * r / WORD;
    assert 64 * n + d == WORD * (64 * q + s) + (64 * r % WORD + d);
    Remainder(64 * q + s, 64 * r % WORD + d);
  }

  lemma Remainder(q: nat, r: nat)
    requires r < WORD
    ensures (WORD * q + r) % WORD == r
  {
  }

  lemma LowByte(q: nat, x: nat)
    ensures (256 * q + x) % 256 == x % 256
  {
  }

  /** Bits above the word do not reach the byte taken. */
  lemma TakenKeeps(n: nat, bits: nat)
    requires bits in {0, 2, 4, 6}
    ensures Taken(n % WORD, bits) == n / Power(bits) % 256
  {
    Powers();
    var q, r := n / WORD, n % WORD;
    assert n == WORD * q + r;
    if bits == 0 {
      LowByte(0x100_0000 * q, r);
    } else if bits == 2 {
      assert n / 4 == 256 * (0x40_0000 * q) + r / 4;
      LowByte(0x40_0000 * q, r / 4);
    } else if bits == 4 {
      assert n / 16 == 256 * (0x10_0000 * q) + r / 16;
      LowByte(0x10_0000 * q, r / 16);
    } else {
      assert n / 64 == 256 * (0x4_0000 * q) + r / 64;
      LowByte(0x4_0000 * q, r / 64);
    }
  }

  lemma ShiftedOut(n: nat, d: Six, bits: nat)
    requires bits in {0, 2, 4, 6}
    ensures if bits == 0 then (64 * n + d) / Power(6) == n
            else (64 * n + d) / Power(bits - 2) / 256 == n / Power(bits)
  {
    Powers();
    if bits == 2 {
      assert (64 * n + d) / 1 / 256 == n / 4;
    } else if bits == 4 {
      assert (64 * n + d) / 4 / 256 == n / 16;
    } else if bits == 6 {
      assert (64 * n + d) / 16 / 256 == n / 64;
    }
  }

  /** Six more bits, and a byte when eight are there. */
  lemma PacksNext(ds: seq<Six>, bs: seq<Byte>, d: Six, bits: nat)
    requires Packs(ds, bs) && bits == 6 * |ds| - 8 * |bs|
    ensures bits == 0 ==> Packs(ds + [d], bs)
    ensures bits != 0 ==> Packs(ds + [d], bs + [Number64(ds + [d]) / Power(bits - 2) % 256])
  {
    More64(ds, d);
    ShiftedOut(Number64(ds), d, bits);
    if bits != 0 {
      More256(bs, Number64(ds + [d]) / Power(bits - 2) % 256);
    }
  }

  datatype Machine = Machine(out: seq<Byte>, acc: nat, bits: nat)

  function Step(m: Machine, d: Six): Machine {
    var acc := Shifted(m.acc, d);
    if m.bits + 6 >= 8 then Machine(m.out + [Taken(acc, m.bits - 2)], acc, m.bits - 2)
    else Machine(m.out, acc, m.bits + 6)
  }

  function Run(ds: seq<Six>): Machine {
    if ds == [] then Machine([], 0, 0) else Step(Run(ds[..|ds| - 1]), ds[|ds| - 1])
  }

  lemma RunMore(ds: seq<Six>, d: Six)
    ensures Run(ds + [d]) == Step(Run(ds), d)
  {
    assert (ds + [d])[..|ds|] == ds;
  }

  /**
   * Between characters the pending bits are 0, 2, 4 or 6, the accumulator is the whole
   * number read so far modulo 2^32, and the bytes out are exactly its complete bytes.
   */
  lemma {:induction false} RunPacks(ds: seq<Six>)
    ensures var m := Run(ds);
      Packs(ds, m.out) && m.bits == 6 * |ds| - 8 * |m.out| && m.bits in {0, 2, 4, 6} && m.acc == Number64(ds) % WORD
  {
    if ds == [] {
      Powers();
    } else {
      var rest, d := ds[..|ds| - 1], ds[|ds| - 1];
      assert ds == rest + [d];
      RunPacks(rest);
      StepPacks(rest, Run(rest), d);
    }
  }

  lemma StepPacks(ds: seq<Six>, m: Machine, d: Six)
    requires Packs(ds, m.out) && m.bits == 6 * |ds| - 8 * |m.out| && m.acc == Number64(ds) % WORD
    ensures var n := Step(m, d);
      Packs(ds + [d], n.out) && n.bits == 6 * (|ds| + 1) - 8 * |n.out| && n.acc == Number64(ds + [d]) % WORD
  {
    More64(ds, d);
    ShiftedKeeps(Number64(ds), d);
    PacksNext(ds, m.out, d, m.bits);
    if m.bits != 0 {
      TakenKeeps(Number64(ds + [d]), m.bits - 2);
    }
  }

  // ---------------------------------------------------------------- the decoder

  lemma {:induction false} BodyStops(text: string, i: nat)
    requires i <= |text| && (forall j :: 0 <= j < i ==> text[j] != '=') && (i == |text| || text[i] == '=')
    ensures Body(text) == text[..i]
    decreases i
  {
    if i > 0 {
      BodyStops(text[1..], i - 1);
      assert text[..i] == [text[0]] + text[1..][..i - 1];
    }
  }

  lemma {:induction false} BodyHas(text: string, i: nat)
    requires i < |text| && forall j :: 0 <= j <= i ==> text[j] != '='
    ensures text[i] in Body(text)
    decreases i
  {
    if i > 0 {
      BodyHas(text[1..], i - 1);
    }
  }

  lemma {:induction false} DigitsMore(text: string, c: char)
    requires Clean(text) && Position(c).Some?
    ensures Clean(text + [c]) && Digits(text + [c]) == Digits(text) + [Position(c).value]
  {
    if text != "" {
      DigitsMore(text[1..], c);
      assert (text + [c])[1..] == text[1..] + [c];
    }
  }

  lemma Finished(text: string, i: nat)
    requires i <= |text| && (forall j :: 0 <= j < i ==> text[j] != '=') && (i == |text| || text[i] == '=')
    requires Clean(text[..i])
    ensures Decodes(text, Some(Run(Digits(text[..i])).out))
  {
    BodyStops(text, i);
    RunPacks(Digits(text[..i]));
  }

  method Feed(before: seq<Byte>, word: nat, pending: nat, d: Six, ghost ds: seq<Six>)
    returns (out: seq<Byte>, acc: nat, bits: nat)
    requires Run(ds) == Machine(before, word, pending)
    ensures Run(ds + [d]) == Machine(out, acc, bits)
  {
    RunMore(ds, d);
    out, acc, bits := before, Shifted(word, d), pending + 6;
    if bits >= 8 {
      bits := bits - 8;
      out := out + [Taken(acc, bits)];
    }
  }

  method DecodeText(text: string) returns (r: Option<seq<Byte>>)
    ensures Decodes(text, r)
  {
    var out: seq<Byte>, acc, bits, i := [], 0, 0, 0;
    while i < |text| && text[i] != '='
      invariant i <= |text| && (forall j :: 0 <= j < i ==> text[j] != '=')
      invariant Clean(text[..i]) && Run(Digits(text[..i])) == Machine(out, acc, bits)
    {
      var position := Position(text[i]);
      if position.None? {
        BodyHas(text, i);
        return None;
      }
      assert text[..i + 1] == text[..i] + [text[i]];
      DigitsMore(text[..i], text[i]);
      out, acc, bits := Feed(out, acc, bits, position.value, Digits(text[..i]));
      i := i + 1;
    }
    Finished(text, i);
    r := Some(out);
  }

  // ---------------------------------------------------------------- the standard encoding

  /** Four digits for three bytes. */
  function Quad(a: Byte, b: Byte, c: Byte): seq<Six> {
    [a / 4, a % 4 * 16 + b / 16, b % 16 * 4 + c / 64, c % 64]
  }

  /** Groups of three bytes. */
  function Groups(bs: seq<Byte>, k: nat): seq<Six>
    requires |bs| == 3 * k
    decreases k
  {
    if k == 0 then [] else
      var n := 3 * (k - 1);
      Groups(bs[..n], k - 1) + Quad(bs[n], bs[n + 1], bs[n + 2])
  }

  /** What is left after whole groups, padded with zero bits. */
  function Tail(bs: seq<Byte>): seq<Six>
    requires |bs| < 3
  {
    if |bs| == 0 then []
    else if |bs| == 1 then [bs[0] / 4, bs[0] % 4 * 16]
    else [bs[0] / 4, bs[0] % 4 * 16 + bs[1] / 16, bs[1] % 16 * 4]
  }

  function Encoding(bs: seq<Byte>): seq<Six> {
    var k := |bs| / 3;
    Groups(bs[..3 * k], k) + Tail(bs[3 * k..])
  }

  function Letters(ds: seq<Six>): string {
    if ds == [] then "" else [Letter(ds[0])] + Letters(ds[1..])
  }

  function EncodeText(bs: seq<Byte>): string {
    Letters(Encoding(bs)) + if |bs| % 3 == 1 then "==" else if |bs| % 3 == 2 then "=" else ""
  }

  lemma {:induction false} LettersRead(ds: seq<Six>, padding: string)
    requires padding == "" || padding[0] == '='
    ensures Body(Letters(ds) + padding) == Letters(ds)
    ensures Clean(Letters(ds)) && Digits(Letters(ds)) == ds
  {
    if ds == [] {
      Unit(padding);
    } else {
      LettersRead(ds[1..], padding);
      AlphabetIff(Letter(ds[0]), ds[0]);
      var text := Letters(ds);
      assert text[1..] == Letters(ds[1..]);
      assert (text + padding)[1..] == Letters(ds[1..]) + padding;
      assert ds == [ds[0]] + ds[1..];
    }
  }

  lemma Four(ds: seq<Six>, p: Six, q: Six, r: Six, s: Six)
    ensures Number64(ds + [p, q]) == 64 * (64 * Number64(ds) + p) + q
    ensures Number64(ds + [p, q, r]) == 64 * (64 * (64 * Number64(ds) + p) + q) + r
    ensures Number64(ds + [p, q, r, s]) == 64 * (64 * (64 * (64 * Number64(ds) + p) + q) + r) + s
  {
    More64(ds, p);
    More64(ds + [p], q);
    assert ds + [p, q] == ds + [p] + [q];
    More64(ds + [p, q], r);
    assert ds + [p, q, r] == ds + [p, q] + [r];
    More64(ds + [p, q, r], s);
    assert ds + [p, q, r, s] == ds + [p, q, r] + [s];
  }

  lemma Three(bs: seq<Byte>, a: Byte, b: Byte, c: Byte)
    ensures Number256(bs + [a]) == 256 * Number256(bs) + a
    ensures Number256(bs + [a, b]) == 256 * (256 * Number256(bs) + a) + b
    ensures Number256(bs + [a, b, c]) == 256 * (256 * (256 * Number256(bs) + a) + b) + c
  {
    More256(bs, a);
    More256(bs + [a], b);
    assert bs + [a, b] == bs + [a] + [b];
    More256(bs + [a, b], c);
    assert bs + [a, b, c] == bs + [a, b] + [c];
  }

  lemma Values(n: nat, a: Byte, b: Byte, c: Byte)
    ensures 64 * (64 * (64 * (64 * n + a / 4) + (a % 4 * 16 + b / 16)) + (b % 16 * 4 + c / 64)) + c % 64
      == 256 * (256 * (256 * n + a) + b) + c
    ensures (64 * (64 * (64 * n + a / 4) + (a % 4 * 16 + b / 16)) + b % 16 * 4) / 4 == 256 * (256 * n + a) + b
    ensures (64 * (64 * n + a / 4) + a % 4 * 16) / 16 == 256 * n + a
  {
  }

  /** One group more spells as much on both sides. */
  lemma QuadNext(ds: seq<Six>, bs: seq<Byte>, a: Byte, b: Byte, c: Byte)
    requires Number64(ds) == Number256(bs)
    ensures Number64(ds + Quad(a, b, c)) == Number256(bs + [a, b, c])
  {
    Three(bs, a, b, c);
    Values(Number64(ds), a, b, c);
    Four(ds, a / 4, a % 4 * 16 + b / 16, b % 16 * 4 + c / 64, c % 64);
  }

  /** Part of a group does, after its zero bits. */
  lemma TailNext(ds: seq<Six>, bs: seq<Byte>, a: Byte, b: Byte)
    requires Number64(ds) == Number256(bs)
    ensures Number64(ds + Tail([a, b])) / 4 == Number256(bs + [a, b])
    ensures Number64(ds + Tail([a])) / 16 == Number256(bs + [a])
  {
    Three(bs, a, b, 0);
    Values(Number64(ds), a, b, 0);
    Four(ds, a / 4, a % 4 * 16 + b / 16, b % 16 * 4, 0);
    Four(ds, a / 4, a % 4 * 16, 0, 0);
  }

  /** Whole groups spell the same number on both sides. */
  lemma {:induction false} GroupsPack(bs: seq<Byte>, k: nat)
    requires |bs| == 3 * k
    ensures Number64(Groups(bs, k)) == Number256(bs) && |Groups(bs, k)| == 4 * k
    decreases k
  {
    if k > 0 {
      var n := 3 * (k - 1);
      var rest, a, b, c := bs[..n], bs[n], bs[n + 1], bs[n + 2];
      GroupsPack(rest, k - 1);
      QuadNext(Groups(rest, k - 1), rest, a, b, c);
      assert bs == rest + [a, b, c];
    }
  }

  lemma PartsPack(rest: seq<Byte>, k: nat, tail: seq<Byte>)
    requires |rest| == 3 * k && |tail| < 3
    ensures Packs(Groups(rest, k) + Tail(tail), rest + tail)
  {
    var ds := Groups(rest, k);
    GroupsPack(rest, k);
    Powers();
    if |tail| == 0 {
      assert ds + Tail(tail) == ds && rest + tail == rest;
    } else if |tail| == 1 {
      TailNext(ds, rest, tail[0], 0);
      assert tail == [tail[0]];
    } else {
      TailNext(ds, rest, tail[0], tail[1]);
      assert tail == [tail[0], tail[1]];
    }
  }

  /** The standard encoding packs its bytes. */
  lemma EncodingPacks(bs: seq<Byte>)
    ensures Packs(Encoding(bs), bs)
  {
    var k := |bs| / 3;
    PartsPack(bs[..3 * k], k, bs[3 * k..]);
    assert bs == bs[..3 * k] + bs[3 * k..];
  }

  /** Decoding the standard encoding of any bytes can only give those bytes. */
  lemma RoundTrip(bs: seq<Byte>, r: Option<seq<Byte>>)
    ensures Decodes(EncodeText(bs), r) <==> r == Some(bs)
  {
    var padding := if |bs| % 3 == 1 then "==" else if |bs| % 3 == 2 then "=" else "";
    LettersRead(Encoding(bs), padding);
    EncodingPacks(bs);
    if Decodes(EncodeText(bs), r) {
      PacksUnique(Encoding(bs), r.value, bs);
    }
  }

  method DecodeEncoded(bs: seq<Byte>) returns (r: Option<seq<Byte>>)
    ensures r == Some(bs)
  {
    r := DecodeText(EncodeText(bs));
    RoundTrip(bs, r);
  }
}
