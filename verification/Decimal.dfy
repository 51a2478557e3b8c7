/** Decimal text of natural numbers, as BigInt and Number print and read it. */
module Decimal {
  import P = Positional

  predicate IsDigit(c: char) {
    '0' <= c <= '9'
  }

  predicate AllDigits(s: string) {
    forall i :: 0 <= i < |s| ==> IsDigit(s[i])
  }

  function DigitValue(c: char): nat
    requires IsDigit(c)
  {
    c as int - '0' as int
  }

  function DigitChar(d: nat): (c: char)
    requires d < 10
    ensures IsDigit(c) && DigitValue(c) == d
  {
    ('0' as int + d) as char
  }

  function Pow10(n: nat): nat {
    P.Pow(10, n)
  }

  /** Quotient and remainder, with the facts that make them so. */
  function Quotient(a: nat, b: nat): (q: nat)
    requires b > 0
    ensures q * b + a % b == a
  {
    a / b
  }

  function Remainder(a: nat, b: nat): (r: nat)
    requires b > 0
    ensures r < b && Quotient(a, b) * b + r == a
  {
    a % b
  }

  function ToDecimal(n: nat): string {
    if n < 10 then [DigitChar(n)] else ToDecimal(n / 10) + [DigitChar(n % 10)]
  }

  function DigitsOf(s: string): seq<nat>
    requires AllDigits(s)
  {
    seq(|s|, i requires 0 <= i < |s| => DigitValue(s[i]))
  }

  function Value(s: string): nat
    requires AllDigits(s)
  {
    P.ValueOf(DigitsOf(s), 10)
  }

  function Zeros(n: nat): (s: string)
    ensures |s| == n && AllDigits(s) && forall i :: 0 <= i < n ==> s[i] == '0'
  {
    seq(n, _ => '0')
  }

  lemma Pow10Positive(n: nat)
    ensures Pow10(n) > 0
  {
    P.PowPositive(10, n);
  }

  lemma ValueLast(s: string)
    requires AllDigits(s) && s != []
    ensures Value(s) == Value(s[..|s| - 1]) * 10 + DigitValue(s[|s| - 1])
  {
    assert DigitsOf(s)[..|s| - 1] == DigitsOf(s[..|s| - 1]);
  }

  lemma {:induction false} DecimalValue(n: nat)
    ensures AllDigits(ToDecimal(n)) && |ToDecimal(n)| >= 1 && Value(ToDecimal(n)) == n
  {
    if n >= 10 {
      DecimalValue(n / 10);
      ValueSnoc(ToDecimal(n / 10), DigitChar(n % 10));
    } else {
      ValueSnoc([], DigitChar(n));
      assert [] + [DigitChar(n)] == ToDecimal(n);
    }
  }

  /** A number below 10^k prints with at most k digits. */
  lemma {:induction false} DecimalLength(n: nat, k: nat)
    requires k >= 1 && n < Pow10(k)
    ensures |ToDecimal(n)| <= k
  {
    if n >= 10 {
      assert Pow10(1) == 10 * Pow10(0) == 10;
      assert Pow10(k) == 10 * Pow10(k - 1);
      DecimalLength(n / 10, k - 1);
    }
  }

  lemma ValueSnoc(front: string, c: char)
    requires AllDigits(front) && IsDigit(c)
    ensures AllDigits(front + [c]) && Value(front + [c]) == Value(front) * 10 + DigitValue(c)
  {
    ValueLast(front + [c]);
    assert (front + [c])[..|front|] == front;
  }

  lemma ValueConcat(a: string, b: string)
    requires AllDigits(a) && AllDigits(b)
    ensures AllDigits(a + b) && Value(a + b) == Value(a) * Pow10(|b|) + Value(b)
  {
    assert DigitsOf(a + b) == DigitsOf(a) + DigitsOf(b);
    P.ValueConcat(DigitsOf(a), DigitsOf(b), 10);
  }

  lemma {:induction false} ValueZeros(n: nat)
    ensures Value(Zeros(n)) == 0
  {
    if n > 0 {
      assert Zeros(n)[..n - 1] == Zeros(n - 1);
      ValueLast(Zeros(n));
      ValueZeros(n - 1);
    }
  }
}
