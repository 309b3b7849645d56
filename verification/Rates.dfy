/**
 * Suffixed rates and bursts (hemlock-common, net.rs): `10m`, `2000pps`, `256k`.
 */
module Rates {
  import opened Basics
  import opened Decimal

  type U64 = x: int | 0 <= x <= U64_MAX

  const U64_MAX := 0xFFFF_FFFF_FFFF_FFFF
  const KILO := 1_000
  const MEGA := 1_000_000
  const GIGA := 1_000_000_000
  const SHAPE_RATE_FLOOR := 64_000

  predicate IsUpper(c: char) {
    'A' <= c <= 'Z'
  }

  function LowerChar(c: char): char {
    if IsUpper(c) then (c as int + 32) as char else c
  }

  function Lower(s: string): string {
    if s == "" then "" else [LowerChar(s[0])] + Lower(s[1..])
  }

  /** The digits a text opens with. */
  function Leading(s: string): (r: string)
    ensures r <= s && AllDigits(r)
  {
    if s != "" && IsDigit(s[0]) then [s[0]] + Leading(s[1..]) else ""
  }

  function Unit(s: string): string {
    s[|Leading(s)|..]
  }

  /** A multiplication that fails past 64 bits. */
  function CheckedMul(value: U64, factor: nat): Option<U64> {
    if value * factor <= U64_MAX then Some(value * factor) else None
  }

  /** A number and its unit; the unit `packets` counts packets. */
  function ReadScaled(text: string, packets: string): Option<(U64, bool)> {
    var lower := Lower(text);
    var value := if Leading(lower) == "" then None else Read(Leading(lower), U64_MAX);
    if value.None? then None else
      var bps := match Unit(lower)
        case "" => Some(value.value)
        case "k" => CheckedMul(value.value, KILO)
        case "m" => CheckedMul(value.value, MEGA)
        case "g" => CheckedMul(value.value, GIGA)
        case _ => None;
      if bps.Some? then Some((bps.value, false))
      else if packets != "" && Unit(lower) == packets then Some((value.value, true))
      else None
  }

  function ParsePoliceRate(text: string): Option<(U64, bool)> {
    var r := ReadScaled(text, "pps");
    if r.Some? && r.value.0 == 0 then None else r
  }

  function ParsePoliceBurst(text: string): Option<(U64, bool)> {
    var r := ReadScaled(text, "pkts");
    if r.Some? && r.value.0 == 0 then None else r
  }

  function ParseShapeRate(text: string): Option<U64> {
    var r := ReadScaled(text, "");
    if r.Some? && r.value.0 >= SHAPE_RATE_FLOOR then Some(r.value.0) else None
  }

  predicate Divides(value: U64, factor: nat)
    requires factor > 0
  {
    value >= factor && value % factor == 0
  }

  function FormatScaled(value: U64): string {
    if Divides(value, GIGA) then Print(value / GIGA) + "g"
    else if Divides(value, MEGA) then Print(value / MEGA) + "m"
    else if Divides(value, KILO) then Print(value / KILO) + "k"
    else Print(value)
  }

  function FormatPoliceRate(rate: U64, pps: bool): string {
    if pps then Print(rate) + "pps" else FormatScaled(rate)
  }

  function FormatPoliceBurst(burst: U64, pkts: bool): string {
    if pkts then Print(burst) + "pkts" else FormatScaled(burst)
  }

  // ---------------------------------------------------------------- reading what was written

  predicate NoUpper(s: string) {
    forall c <- s :: !IsUpper(c)
  }

  lemma {:induction false} LowerKeeps(s: string)
    requires NoUpper(s)
    ensures Lower(s) == s
  {
    if s != "" {
      assert s == [s[0]] + s[1..] && s[0] in s;
      LowerKeeps(s[1..]);
    }
  }

  lemma {:induction false} LeadingSplits(digits: string, unit: string)
    requires AllDigits(digits) && (unit == "" || !IsDigit(unit[0]))
    ensures Leading(digits + unit) == digits
  {
    if digits == "" {
      assert digits + unit == unit;
    } else {
      LeadingSplits(digits[1..], unit);
      assert (digits + unit)[1..] == digits[1..] + unit;
    }
  }

  /** What a written number and unit read as. */
  lemma WrittenSplits(n: U64, unit: string)
    requires NoUpper(unit) && (unit == "" || !IsDigit(unit[0]))
    ensures var lower := Lower(Print(n) + unit);
      Leading(lower) == Print(n) && Unit(lower) == unit && Read(Leading(lower), U64_MAX) == Some(n)
  {
    assert NoUpper(Print(n) + unit);
    LowerKeeps(Print(n) + unit);
    LeadingSplits(Print(n), unit);
    ReadPrintIff(n, U64_MAX);
  }

  lemma WrittenPlain(n: U64, packets: string)
    ensures ReadScaled(Print(n), packets) == Some((n, false))
  {
    WrittenSplits(n, "");
    assert Print(n) + "" == Print(n);
  }

  /** The multiplication a suffix asks for never overflows on a formatted number. */
  lemma WrittenScaled(value: U64, unit: string, factor: nat, packets: string)
    requires (unit, factor) in {("k", KILO), ("m", MEGA), ("g", GIGA)} && Divides(value, factor)
    ensures CheckedMul(value / factor, factor) == Some(value)
    ensures ReadScaled(Print(value / factor) + unit, packets) == Some((value, false))
  {
    WrittenSplits(value / factor, unit);
    assert value / factor * factor == value;
  }

  lemma ScaledReads(value: U64, packets: string)
    ensures ReadScaled(FormatScaled(value), packets) == Some((value, false))
  {
    if Divides(value, GIGA) {
      WrittenScaled(value, "g", GIGA, packets);
    } else if Divides(value, MEGA) {
      WrittenScaled(value, "m", MEGA, packets);
    } else if Divides(value, KILO) {
      WrittenScaled(value, "k", KILO, packets);
    } else {
      WrittenPlain(value, packets);
    }
  }

  lemma PacketsRead(n: U64, packets: string)
    requires |packets| > 1 && NoUpper(packets) && !IsDigit(packets[0])
    ensures ReadScaled(Print(n) + packets, packets) == Some((n, true))
  {
    WrittenSplits(n, packets);
  }

  /** Formatted rates read back, all but zero. */
  lemma PoliceRateIff(rate: U64, pps: bool)
    ensures ParsePoliceRate(FormatPoliceRate(rate, pps)) == Some((rate, pps)) <==> rate > 0
  {
    ScaledReads(rate, "pps");
    PacketsRead(rate, "pps");
  }

  lemma PoliceBurstIff(burst: U64, pkts: bool)
    ensures ParsePoliceBurst(FormatPoliceBurst(burst, pkts)) == Some((burst, pkts)) <==> burst > 0
  {
    ScaledReads(burst, "pkts");
    PacketsRead(burst, "pkts");
  }

  /** Formatted shaper rates read back from the shaper floor on. */
  lemma ShapeRateIff(rate: U64)
    ensures ParseShapeRate(FormatScaled(rate)) == Some(rate) <==> rate >= SHAPE_RATE_FLOOR
  {
    ScaledReads(rate, "");
  }

  // ---------------------------------------------------------------- the shortest form

  function Factor(unit: string): nat {
    if unit == "k" then KILO else if unit == "m" then MEGA else if unit == "g" then GIGA else 1
  }

  lemma PrintTen(n: nat)
    requires n > 0
    ensures |Print(10 * n)| == |Print(n)| + 1
  {
  }

  lemma PrintThousand(n: nat)
    requires n > 0
    ensures |Print(1000 * n)| == |Print(n)| + 3
  {
    PrintTen(n);
    PrintTen(10 * n);
    PrintTen(100 * n);
  }

  lemma PrintSteps(n: nat)
    requires n > 0
    ensures |Print(KILO * n)| > |Print(n)| && |Print(MEGA * n)| > |Print(n)| && |Print(GIGA * n)| > |Print(n)|
  {
    PrintThousand(n);
    PrintThousand(1000 * n);
    PrintThousand(1_000_000 * n);
  }

  lemma Ratio(n: nat, f: nat, m: nat, g: nat)
    requires f in {1, KILO, MEGA, GIGA} && g in {1, KILO, MEGA, GIGA} && g <= f && n * f == m * g
    ensures if g == f then m == n else m == KILO * n || m == MEGA * n || m == GIGA * n
  {
  }

  /** One value under two factors: the larger factor leaves the shorter number. */
  lemma LargerFactor(n: nat, f: nat, m: nat, g: nat)
    requires f in {1, KILO, MEGA, GIGA} && g in {1, KILO, MEGA, GIGA} && g <= f
    requires n > 0 && n * f == m * g
    ensures if g == f then m == n else |Print(m)| > |Print(n)|
  {
    Ratio(n, f, m, g);
    PrintSteps(n);
  }

  function FormatFactor(value: U64): nat {
    if Divides(value, GIGA) then GIGA
    else if Divides(value, MEGA) then MEGA
    else if Divides(value, KILO) then KILO
    else 1
  }

  lemma MultipleDivides(m: nat, g: nat)
    requires g in {KILO, MEGA, GIGA} && m > 0 && m * g <= U64_MAX
    ensures Divides(m * g, g)
  {
    if g == KILO {
      assert m * KILO % KILO == 0;
    } else if g == MEGA {
      assert m * MEGA % MEGA == 0;
    } else {
      assert m * GIGA % GIGA == 0;
    }
  }

  lemma DividesExactly(value: U64, f: nat)
    requires f in {KILO, MEGA, GIGA} && Divides(value, f)
    ensures value / f * f == value && value / f > 0
  {
    if f == KILO {
      assert value / KILO * KILO == value;
    } else if f == MEGA {
      assert value / MEGA * MEGA == value;
    } else {
      assert value / GIGA * GIGA == value;
    }
  }

  /** A formatted value uses the largest factor that divides it. */
  lemma FormattedWith(value: U64, m: nat, g: nat)
    requires value > 0 && g in {1, KILO, MEGA, GIGA} && m * g == value
    ensures var f := FormatFactor(value);
      f in {1, KILO, MEGA, GIGA} && g <= f && value / f * f == value && value / f > 0
  {
    if g != 1 {
      MultipleDivides(m, g);
    }
    if FormatFactor(value) != 1 {
      DividesExactly(value, FormatFactor(value));
    }
  }

  /** No number with a suffix spells a value in fewer characters than its formatted text. */
  lemma ScaledShortest(value: U64, n: nat, unit: string)
    requires unit in {"", "k", "m", "g"} && n * Factor(unit) == value
    ensures |FormatScaled(value)| <= |Print(n) + unit|
  {
    if value > 0 {
      FormattedWith(value, n, Factor(unit));
      var f := FormatFactor(value);
      LargerFactor(value / f, f, n, Factor(unit));
      assert |FormatScaled(value)| == |Print(value / f)| + if f == 1 then 0 else 1;
    }
  }
}
