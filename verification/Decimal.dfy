/**
 * Unsigned decimal text, as the standard library prints and reads it: a reader takes an
 * optional leading plus and leading zeros, and refuses what does not fit.
 */
module Decimal {
  import opened Basics

  predicate IsDigit(c: char) {
    '0' <= c <= '9'
  }

  function DigitOf(c: char): nat
    requires IsDigit(c)
  {
    c as int - '0' as int
  }

  function DigitChar(d: nat): (c: char)
    requires d < 10
    ensures IsDigit(c) && DigitOf(c) == d
  {
    ('0' as int + d) as char
  }

  predicate AllDigits(s: string) {
    forall c <- s :: IsDigit(c)
  }

  function Print(n: nat): (s: string)
    ensures s != "" && AllDigits(s)
  {
    if n < 10 then [DigitChar(n)] else Print(n / 10) + [DigitChar(n % 10)]
  }

  function Value(s: string): nat
    requires AllDigits(s)
  {
    if s == "" then 0 else 10 * Value(s[..|s| - 1]) + DigitOf(s[|s| - 1])
  }

  /** A number of at most `max`. */
  function Read(s: string, max: nat): Option<nat> {
    var body := if s != "" && s[0] == '+' then s[1..] else s;
    if body != "" && AllDigits(body) && Value(body) <= max then Some(Value(body)) else None
  }

  lemma {:induction false} PrintValue(n: nat)
    ensures Value(Print(n)) == n
  {
    if n >= 10 {
      PrintValue(n / 10);
      assert Print(n)[..|Print(n)| - 1] == Print(n / 10);
    }
  }

  /** A printed number reads back exactly when it fits. */
  lemma ReadPrintIff(n: nat, max: nat)
    ensures Read(Print(n), max) == Some(n) <==> n <= max
    ensures n > max ==> Read(Print(n), max) == None
  {
    PrintValue(n);
    assert IsDigit(Print(n)[0]);
  }

  /** No digits spell a number in fewer characters. */
  lemma {:induction false} PrintShortest(s: string)
    requires s != "" && AllDigits(s)
    ensures |Print(Value(s))| <= |s|
  {
    var front, last := s[..|s| - 1], s[|s| - 1];
    assert IsDigit(last) && Value(s) == 10 * Value(front) + DigitOf(last);
    if |s| == 1 {
      assert front == "";
    } else {
      PrintShortest(front);
      assert Value(s) >= 10 ==> |Print(Value(s))| == |Print(Value(front))| + 1;
    }
  }
}
