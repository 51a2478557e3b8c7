/** Numbers written as digits of a base, most significant digit first, and hexadecimal text. */
module Positional {
  import opened Prelude

  predicate AllBelow(ds: seq<nat>, b: nat) {
    forall i :: 0 <= i < |ds| ==> ds[i] < b
  }

  function Pow(b: nat, n: nat): nat {
    if n == 0 then 1 else b * Pow(b, n - 1)
  }

  function ValueOf(ds: seq<nat>, b: nat): nat {
    if ds == [] then 0 else ValueOf(ds[..|ds| - 1], b) * b + ds[|ds| - 1]
  }

  /** The digits of n with no leading zero: none at all for zero. */
  function Digits(n: nat, b: nat): (ds: seq<nat>)
    requires b >= 2
    ensures AllBelow(ds, b)
  {
    if n == 0 then [] else Digits(n / b, b) + [n % b]
  }

  /** The last k digits of n. */
  function FixedDigits(n: nat, b: nat, k: nat): (ds: seq<nat>)
    requires b >= 2
    ensures |ds| == k && AllBelow(ds, b)
  {
    if k == 0 then [] else FixedDigits(n / b, b, k - 1) + [n % b]
  }

  function StripZeros(ds: seq<nat>): seq<nat> {
    if ds != [] && ds[0] == 0 then StripZeros(ds[1..]) else ds
  }

  // ---------- Division ----------

  lemma MulMonotone(p: nat, q: nat, b: nat)
    requires p < q
    ensures p * b + b <= q * b
  {
    var k: nat := q - p - 1;
    assert k * b >= 0;
    assert q * b == (p + 1 + k) * b == p * b + b + k * b;
  }

  lemma DivMod(n: nat, b: nat)
    requires b >= 2
    ensures (n / b) * b + n % b == n && n % b < b
    ensures n / b == 0 <==> n < b
    ensures n > 0 ==> n / b < n
  {
  }

  lemma DivModUnique(q: nat, d: nat, b: nat)
    requires b >= 2 && d < b
    ensures (q * b + d) / b == q && (q * b + d) % b == d
  {
    var n := q * b + d;
    DivMod(n, b);
    if n / b < q {
      MulMonotone(n / b, q, b);
    } else if q < n / b {
      MulMonotone(q, n / b, b);
    }
  }

  lemma DivBelow(n: nat, b: nat, m: nat)
    requires b >= 2 && n < b * m
    ensures n / b < m
  {
    DivMod(n, b);
    if m < n / b {
      MulMonotone(m, n / b, b);
    }
  }

  lemma {:induction false} PowPositive(b: nat, n: nat)
    requires b >= 1
    ensures Pow(b, n) >= 1
  {
    if n > 0 {
      PowPositive(b, n - 1);
      assert b * Pow(b, n - 1) >= 1 * 1;
    }
  }

  lemma {:induction false} PowAdd(b: nat, m: nat, n: nat)
    ensures Pow(b, m + n) == Pow(b, m) * Pow(b, n)
  {
    if m > 0 {
      PowAdd(b, m - 1, n);
      assert Pow(b, m + n) == b * (Pow(b, m - 1) * Pow(b, n)) == b * Pow(b, m - 1) * Pow(b, n);
    } else {
      assert Pow(b, 0) * Pow(b, n) == Pow(b, n);
    }
  }

  lemma Products(a: nat, b: nat, c: nat, d: nat)
    requires a <= b && c <= d
    ensures a * c <= b * d
  {
    assert (b - a) * c >= 0;
    assert b * (d - c) >= 0;
  }

  lemma {:induction false} PowBelow(a: nat, b: nat, n: nat)
    requires a <= b
    ensures Pow(a, n) <= Pow(b, n)
  {
    if n > 0 {
      PowBelow(a, b, n - 1);
      Products(a, b, Pow(a, n - 1), Pow(b, n - 1));
    }
  }

  lemma PowGrows(b: nat, m: nat, n: nat)
    requires b >= 1 && m <= n
    ensures Pow(b, m) <= Pow(b, n)
  {
    PowAdd(b, m, n - m);
    PowPositive(b, n - m);
    Products(Pow(b, m), Pow(b, m), 1, Pow(b, n - m));
  }

  lemma SmallMod(n: nat, b: nat)
    requires n < b
    ensures n % b == n
  {
  }

  // ---------- Digits and their value ----------

  lemma ValueSnoc(front: seq<nat>, d: nat, b: nat)
    ensures ValueOf(front + [d], b) == ValueOf(front, b) * b + d
  {
    assert (front + [d])[..|front|] == front;
  }

  lemma {:induction false} DigitsValue(n: nat, b: nat)
    requires b >= 2
    ensures ValueOf(Digits(n, b), b) == n
    ensures Digits(n, b) == [] || Digits(n, b)[0] != 0
  {
    if n > 0 {
      DivMod(n, b);
      DigitsValue(n / b, b);
      ValueSnoc(Digits(n / b, b), n % b, b);
    }
  }

  lemma DigitsSnoc(q: nat, d: nat, b: nat)
    requires b >= 2 && d < b && (q > 0 || d > 0)
    ensures Digits(q * b + d, b) == Digits(q, b) + [d]
  {
    DivModUnique(q, d, b);
    assert q * b >= 0;
    if q > 0 {
      MulMonotone(0, q, b);
    }
  }

  lemma {:induction false} StripZerosAppend(ds: seq<nat>, d: nat)
    ensures StripZeros(ds + [d]) == if StripZeros(ds) == [] && d == 0 then [] else StripZeros(ds) + [d]
  {
    if ds == [] {
      assert ds + [d] == [d];
      assert [d][1..] == [];
    } else if ds[0] == 0 {
      assert (ds + [d])[1..] == ds[1..] + [d];
      StripZerosAppend(ds[1..], d);
    }
  }

  /** Reading digits and writing the number again only drops leading zeros. */
  lemma {:induction false} ValueDigits(ds: seq<nat>, b: nat)
    requires b >= 2 && AllBelow(ds, b)
    ensures Digits(ValueOf(ds, b), b) == StripZeros(ds)
  {
    if ds != [] {
      var front, d := ds[..|ds| - 1], ds[|ds| - 1];
      assert ds == front + [d];
      ValueDigits(front, b);
      StripZerosAppend(front, d);
      ValueSnoc(front, d, b);
      var q := ValueOf(front, b);
      if q == 0 && d == 0 {
        assert q * b == 0;
      } else {
        DigitsSnoc(q, d, b);
        DigitsValue(q, b);
      }
    }
  }

  lemma {:induction false} FixedValue(n: nat, b: nat, k: nat)
    requires b >= 2 && n < Pow(b, k)
    ensures ValueOf(FixedDigits(n, b, k), b) == n
  {
    if k > 0 {
      DivBelow(n, b, Pow(b, k - 1));
      DivMod(n, b);
      FixedValue(n / b, b, k - 1);
      ValueSnoc(FixedDigits(n / b, b, k - 1), n % b, b);
    }
  }

  lemma {:induction false} ValueFixed(ds: seq<nat>, b: nat)
    requires b >= 2 && AllBelow(ds, b)
    ensures ValueOf(ds, b) < Pow(b, |ds|)
    ensures FixedDigits(ValueOf(ds, b), b, |ds|) == ds
  {
    if ds != [] {
      var front, d := ds[..|ds| - 1], ds[|ds| - 1];
      assert ds == front + [d];
      ValueFixed(front, b);
      ValueSnoc(front, d, b);
      DivModUnique(ValueOf(front, b), d, b);
      MulMonotone(ValueOf(front, b), Pow(b, |front|), b);
      assert Pow(b, |ds|) == b * Pow(b, |front|) == Pow(b, |front|) * b;
    }
  }

  lemma {:induction false} ValueConcat(a: seq<nat>, c: seq<nat>, b: nat)
    ensures ValueOf(a + c, b) == ValueOf(a, b) * Pow(b, |c|) + ValueOf(c, b)
  {
    if c == [] {
      assert a + c == a;
    } else {
      var front, d := c[..|c| - 1], c[|c| - 1];
      ValueConcat(a, front, b);
      ValueSnoc(a + front, d, b);
      ValueSnoc(front, d, b);
      assert a + c == (a + front) + [d] && c == front + [d];
      Distribute(ValueOf(a, b), Pow(b, |front|), ValueOf(front, b), b);
    }
  }

  lemma Distribute(x: nat, p: nat, y: nat, b: nat)
    ensures (x * p + y) * b == x * (b * p) + y * b
  {
    assert x * p * b == x * (p * b) == x * (b * p);
  }

  // ---------- Hexadecimal text ----------

  function HexChar(d: nat): char
    requires d < 16
  {
    if d < 10 then ('0' as int + d) as char else ('a' as int + d - 10) as char
  }

  function HexDigit(c: char): (d: Option<nat>)
    ensures d.Some? ==> d.value < 16
  {
    if '0' <= c <= '9' then Some(c as int - '0' as int)
    else if 'a' <= c <= 'f' then Some(c as int - 'a' as int + 10)
    else if 'A' <= c <= 'F' then Some(c as int - 'A' as int + 10)
    else None
  }

  predicate IsHex(s: string) {
    forall i :: 0 <= i < |s| ==> HexDigit(s[i]).Some?
  }

  function HexText(ds: seq<nat>): (s: string)
    requires AllBelow(ds, 16)
    ensures |s| == |ds| && forall i :: 0 <= i < |ds| ==> s[i] == HexChar(ds[i])
  {
    if ds == [] then "" else HexText(ds[..|ds| - 1]) + [HexChar(ds[|ds| - 1])]
  }

  function HexDigits(s: string): (ds: seq<nat>)
    requires IsHex(s)
    ensures |ds| == |s| && AllBelow(ds, 16)
    ensures forall i :: 0 <= i < |s| ==> ds[i] == HexDigit(s[i]).value
  {
    if s == "" then [] else HexDigits(s[..|s| - 1]) + [HexDigit(s[|s| - 1]).value]
  }

  function HexValue(s: string): nat
    requires IsHex(s)
  {
    ValueOf(HexDigits(s), 16)
  }

  lemma HexRoundTrip(ds: seq<nat>)
    requires AllBelow(ds, 16)
    ensures IsHex(HexText(ds)) && HexDigits(HexText(ds)) == ds
  {
    assert forall i :: 0 <= i < |ds| ==> HexDigit(HexChar(ds[i])) == Some(ds[i]);
  }

  // ---------- Bytes ----------

  type byte = n: nat | n < 256

  function ByteDigits(n: nat): seq<byte> {
    Digits(n, 256)
  }

  function BytesHex(bytes: seq<byte>): (s: string)
    ensures |s| == 2 * |bytes|
  {
    if bytes == [] then ""
    else
      var last := bytes[|bytes| - 1];
      BytesHex(bytes[..|bytes| - 1]) + [HexChar(last / 16), HexChar(last % 16)]
  }

  /** Pairs of digits up to the first that is none, as Buffer reads them. */
  function HexBytes(s: string): seq<byte> {
    if |s| < 2 || HexDigit(s[0]).None? || HexDigit(s[1]).None? then []
    else [HexDigit(s[0]).value * 16 + HexDigit(s[1]).value] + HexBytes(s[2..])
  }

  lemma ValuePair(ds: seq<nat>, hi: nat, lo: nat)
    ensures ValueOf(ds + [hi, lo], 16) == ValueOf(ds, 16) * 256 + hi * 16 + lo
  {
    ValueSnoc(ds + [hi], lo, 16);
    ValueSnoc(ds, hi, 16);
    assert ds + [hi, lo] == (ds + [hi]) + [lo];
  }

  lemma {:induction false} HexPair(s: string, hi: nat, lo: nat)
    requires IsHex(s) && hi < 16 && lo < 16
    ensures IsHex(s + [HexChar(hi), HexChar(lo)])
    ensures HexDigits(s + [HexChar(hi), HexChar(lo)]) == HexDigits(s) + [hi, lo]
  {
    var t := s + [HexChar(hi), HexChar(lo)];
    assert HexDigit(HexChar(hi)) == Some(hi) && HexDigit(HexChar(lo)) == Some(lo);
    assert forall i :: 0 <= i < |s| ==> t[i] == s[i];
    assert t[|s|] == HexChar(hi) && t[|s| + 1] == HexChar(lo);
  }

  /** The hexadecimal text of bytes is the same number as the bytes. */
  lemma {:induction false} BytesHexValue(bytes: seq<byte>)
    ensures IsHex(BytesHex(bytes)) && HexValue(BytesHex(bytes)) == ValueOf(bytes, 256)
  {
    if bytes != [] {
      var front, last := bytes[..|bytes| - 1], bytes[|bytes| - 1];
      BytesHexValue(front);
      HexPair(BytesHex(front), last / 16, last % 16);
      ValuePair(HexDigits(BytesHex(front)), last / 16, last % 16);
      assert bytes == front + [last];
      ValueSnoc(front, last, 256);
      assert last == last / 16 * 16 + last % 16;
    }
  }

  lemma {:induction false} HexBytesAppend(s: string, last: byte)
    requires IsHex(s) && |s| % 2 == 0
    ensures HexBytes(s + [HexChar(last / 16), HexChar(last % 16)]) == HexBytes(s) + [last]
  {
    var pair := [HexChar(last / 16), HexChar(last % 16)];
    if s == "" {
      assert s + pair == pair && pair[2..] == [];
      assert HexDigit(HexChar(last / 16)) == Some(last / 16) && HexDigit(HexChar(last % 16)) == Some(last % 16);
    } else {
      HexBytesAppend(s[2..], last);
      assert (s + pair)[2..] == s[2..] + pair;
    }
  }

  lemma {:induction false} BytesHexRoundTrip(bytes: seq<byte>)
    ensures HexBytes(BytesHex(bytes)) == bytes
  {
    if bytes != [] {
      var front, last := bytes[..|bytes| - 1], bytes[|bytes| - 1];
      BytesHexRoundTrip(front);
      BytesHexValue(front);
      HexBytesAppend(BytesHex(front), last);
    }
  }

  /** A number's hexadecimal digits, evened up with a leading zero, are its bytes with no leading zero byte. */
  function EvenHex(n: nat): string {
    Even(HexText(Digits(n, 16)))
  }

  function Even(hex: string): string {
    if |hex| % 2 != 0 then "0" + hex else hex
  }

  lemma TwoHexDigits(n: nat)
    requires n >= 16
    ensures Digits(n, 16) == Digits(n / 256, 16) + [n / 16 % 16, n % 16]
  {
    assert n / 16 / 16 == n / 256;
    assert Digits(n, 16) == Digits(n / 16, 16) + [n % 16];
    assert Digits(n / 16, 16) == Digits(n / 256, 16) + [n / 16 % 16];
  }

  lemma HexTextSnoc(ds: seq<nat>, hi: nat, lo: nat)
    requires AllBelow(ds, 16) && hi < 16 && lo < 16
    ensures HexText(ds + [hi, lo]) == HexText(ds) + [HexChar(hi), HexChar(lo)]
  {
  }

  lemma BytesHexSnoc(bytes: seq<byte>, last: byte)
    ensures BytesHex(bytes + [last]) == BytesHex(bytes) + [HexChar(last / 16), HexChar(last % 16)]
  {
    assert (bytes + [last])[..|bytes|] == bytes;
  }

  lemma OneHexDigit(n: nat)
    requires 0 < n < 16
    ensures Digits(n, 16) == [n] && Digits(n, 256) == [n]
  {
    assert n / 16 == 0 && n / 256 == 0 && n % 16 == n && n % 256 == n;
    assert Digits(0, 16) == [] && Digits(0, 256) == [];
  }

  lemma TwoMoreHexDigits(n: nat)
    requires n >= 16
    ensures EvenHex(n) == EvenHex(n / 256) + [HexChar(n / 16 % 16), HexChar(n % 16)]
  {
    TwoHexDigits(n);
    var hi, lo := n / 16 % 16, n % 16;
    HexTextSnoc(Digits(n / 256, 16), hi, lo);
    EvenSnoc(HexText(Digits(n / 256, 16)), [HexChar(hi), HexChar(lo)]);
  }

  lemma TwoNibbles(n: nat)
    ensures (n % 256) / 16 == n / 16 % 16 && (n % 256) % 16 == n % 16
  {
    var q, r := n / 256, n % 256;
    assert n == (16 * q + r / 16) * 16 + r % 16;
    DivModUnique(16 * q + r / 16, r % 16, 16);
    DivModUnique(q, r / 16, 16);
  }

  lemma {:induction false} OneMoreByte(n: nat)
    requires n > 0
    ensures BytesHex(ByteDigits(n)) == BytesHex(ByteDigits(n / 256)) + [HexChar(n / 16 % 16), HexChar(n % 16)]
  {
    TwoNibbles(n);
    BytesHexSnoc(ByteDigits(n / 256), n % 256);
    assert ByteDigits(n) == ByteDigits(n / 256) + [n % 256];
  }

  lemma {:induction false} EvenHexIsBytes(n: nat)
    ensures EvenHex(n) == BytesHex(ByteDigits(n))
  {
    if 0 < n < 16 {
      OneHexDigit(n);
      OneMoreByte(n);
      assert n / 256 == 0 && n / 16 % 16 == 0 && n % 16 == n;
      assert BytesHex(ByteDigits(0)) == "";
    } else if n >= 16 {
      EvenHexIsBytes(n / 256);
      TwoMoreHexDigits(n);
      OneMoreByte(n);
    }
  }

  lemma EvenSnoc(hex: string, pair: string)
    requires |pair| == 2
    ensures Even(hex + pair) == Even(hex) + pair
  {
  }
}
