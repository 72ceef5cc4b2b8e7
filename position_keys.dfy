/**
 * The dictionary key of a position, the f-string `f'{openDay}-{closeDay}'`
 * (main.py). Python's `str` of a non-negative int is its decimal digits with
 * no leading zero. The deduplication in generatePositions relies on this
 * key naming the (open day, close day) pair faithfully: two different pairs
 * never share a key.
 */
module PositionKeys {

  function Digit(d: nat): (c: char)
    requires d < 10
    ensures '0' <= c <= '9' && DigitValue(c) == d
  {
    ('0' as int + d) as char
  }

  function DigitValue(c: char): int
  {
    c as int - '0' as int
  }

  predicate IsDigits(s: string)
  {
    forall i :: 0 <= i < |s| ==> '0' <= s[i] <= '9'
  }

  /** `str(n)` for a non-negative int. */
  function Decimal(n: nat): (s: string)
    ensures |s| > 0
  {
    if n < 10 then [Digit(n)] else Decimal(n / 10) + [Digit(n % 10)]
  }

  /** The number a string of decimal digits denotes (the inverse of Decimal). */
  function DecimalValue(s: string): int
  {
    if s == [] then 0 else DecimalValue(s[..|s| - 1]) * 10 + DigitValue(s[|s| - 1])
  }

  lemma {:induction false} DecimalRoundTrip(n: nat)
    ensures DecimalValue(Decimal(n)) == n
  {
    if n >= 10 {
      var s := Decimal(n);
      assert s[..|s| - 1] == Decimal(n / 10);
      DecimalRoundTrip(n / 10);
    }
  }

  /** `str(n)` writes digits only. */
  lemma {:induction false} DecimalDigits(n: nat)
    ensures IsDigits(Decimal(n))
  {
    if n >= 10 {
      DecimalDigits(n / 10);
    }
  }

  /** The dictionary key `f'{openDay}-{closeDay}'`. */
  function KeyString(openDay: nat, closeDay: nat): (key: string)
    ensures |key| == |Decimal(openDay)| + 1 + |Decimal(closeDay)| && key[|Decimal(openDay)|] == '-'
  {
    Decimal(openDay) + "-" + Decimal(closeDay)
  }

  /** Different (open day, close day) pairs get different dictionary keys. */
  lemma KeyStringInjective(open1: nat, close1: nat, open2: nat, close2: nat)
    requires KeyString(open1, close1) == KeyString(open2, close2)
    ensures open1 == open2 && close1 == close2
  {
    var s := KeyString(open1, close1);
    var a1, a2 := Decimal(open1), Decimal(open2);
    var b1, b2 := Decimal(close1), Decimal(close2);
    DecimalDigits(open1);
    DecimalDigits(open2);
    assert s == a1 + "-" + b1 == a2 + "-" + b2;
    // A shorter open-day prefix would put its '-' where the other key has a digit.
    assert s[|a1|] == '-' && s[|a2|] == '-';
    assert a1 == s[..|a1|] == a2;
    assert b1 == s[|a1| + 1..] == b2;
    DecimalRoundTrip(open1);
    DecimalRoundTrip(open2);
    DecimalRoundTrip(close1);
    DecimalRoundTrip(close2);
  }
}
