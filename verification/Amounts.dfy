/** Payroll amounts: decimal text with a fixed number of decimals, and its integer value. */
module Amounts {
  import opened Prelude
  import opened Decimal
  import P = Positional

  datatype AmountError = InvalidDecimals | InvalidAmount | ExceedsDecimals

  function WholePart(s: string): string {
    s[..IndexOf(s, '.')]
  }

  function FractionPart(s: string): string {
    var i := IndexOf(s, '.');
    if i < |s| then s[i + 1..] else ""
  }

  /** Digits, then optionally a point and any number of digits. */
  predicate IsAmountText(s: string) {
    |WholePart(s)| >= 1 && AllDigits(WholePart(s)) && AllDigits(FractionPart(s))
  }

  function PadEnd(s: string, n: nat): string {
    if |s| >= n then s else s + Zeros(n - |s|)
  }

  function PadStart(s: string, n: nat): string {
    if |s| >= n then s else Zeros(n - |s|) + s
  }

  function StripTrailingZeros(s: string): string {
    if s != [] && s[|s| - 1] == '0' then StripTrailingZeros(s[..|s| - 1]) else s
  }

  lemma PadEndDigits(s: string, n: nat)
    requires AllDigits(s)
    ensures AllDigits(PadEnd(s, n))
  {
  }

  function ParsePayrollAmount(amount: string, decimals: int): Result<nat, AmountError> {
    if decimals < 0 then Err(InvalidDecimals)
    else if !IsAmountText(amount) then Err(InvalidAmount)
    else if |FractionPart(amount)| > decimals then Err(ExceedsDecimals)
    else
      PadEndDigits(FractionPart(amount), decimals);
      Ok(Value(WholePart(amount)) * Pow10(decimals) + Value(PadEnd(FractionPart(amount), decimals)))
  }

  function FormatPayrollAmount(amount: nat, decimals: int): string {
    if decimals <= 0 then ToDecimal(amount)
    else
      Pow10Positive(decimals);
      var scale := Pow10(decimals);
      var fraction := StripTrailingZeros(PadStart(ToDecimal(Remainder(amount, scale)), decimals));
      if fraction == "" then ToDecimal(Quotient(amount, scale)) else ToDecimal(Quotient(amount, scale)) + "." + fraction
  }

  lemma PartsOf(whole: string, fraction: string)
    requires AllDigits(whole)
    ensures WholePart(whole) == whole && FractionPart(whole) == ""
    ensures WholePart(whole + "." + fraction) == whole && FractionPart(whole + "." + fraction) == fraction
  {
    assert '.' !in whole;
    IndexOfAfter(whole, fraction, '.');
  }

  lemma {:induction false} StripRestores(s: string)
    requires AllDigits(s)
    ensures AllDigits(StripTrailingZeros(s)) && |StripTrailingZeros(s)| <= |s|
    ensures s == StripTrailingZeros(s) + Zeros(|s| - |StripTrailingZeros(s)|)
  {
    if s != [] && s[|s| - 1] == '0' {
      StripRestores(s[..|s| - 1]);
      var t := StripTrailingZeros(s[..|s| - 1]);
      assert s == s[..|s| - 1] + ['0'];
      assert Zeros(|s| - |t|) == Zeros(|s| - 1 - |t|) + ['0'];
    }
  }

  /** The padded fraction digits of a value below 10^d: d digits that denote the value. */
  lemma PaddedDigits(f: nat, d: nat)
    requires d >= 1 && f < Pow10(d)
    ensures var s := PadStart(ToDecimal(f), d); |s| == d && AllDigits(s) && Value(s) == f
  {
    DecimalValue(f);
    DecimalLength(f, d);
    var t := ToDecimal(f);
    var z := Zeros(d - |t|);
    ValueConcat(z, t);
    ValueZeros(d - |t|);
    assert PadStart(t, d) == z + t;
    assert Value(z + t) == 0 * Pow10(|t|) + Value(t) == f;
  }

  /** Formatting then parsing gives back every amount at every precision. */
  lemma ParseFormat(n: nat, d: nat)
    ensures ParsePayrollAmount(FormatPayrollAmount(n, d), d) == Ok(n)
  {
    var text := FormatPayrollAmount(n, d);
    if d == 0 {
      DecimalValue(n);
      PartsOf(ToDecimal(n), "");
      assert PadEnd("", 0) == "";
    } else {
      Pow10Positive(d);
      var scale := Pow10(d);
      var whole, padded := ToDecimal(Quotient(n, scale)), PadStart(ToDecimal(Remainder(n, scale)), d);
      var fraction := StripTrailingZeros(padded);
      DecimalValue(Quotient(n, scale));
      PaddedDigits(Remainder(n, scale), d);
      StripRestores(padded);
      PartsOf(whole, fraction);
      assert PadEnd(fraction, d) == padded;
      assert WholePart(text) == whole && FractionPart(text) == fraction;
    }
  }

  /** What a text denotes at a precision: its digits without the point, scaled by the missing decimals. */
  ghost predicate Denotes(s: string, d: nat, v: nat) {
    exists whole: string, fraction: string ::
      && AllDigits(whole) && AllDigits(fraction) && whole != ""
      && (s == whole + "." + fraction || (s == whole && fraction == ""))
      && |fraction| <= d
      && AllDigits(whole + fraction) && v == Value(whole + fraction) * Pow10(d - |fraction|)
  }

  lemma ScaledValue(whole: string, fraction: string, d: nat)
    requires AllDigits(whole) && AllDigits(fraction) && |fraction| <= d
    ensures AllDigits(whole + fraction) && AllDigits(PadEnd(fraction, d))
    ensures Value(whole) * Pow10(d) + Value(PadEnd(fraction, d)) == Value(whole + fraction) * Pow10(d - |fraction|)
  {
    var k := d - |fraction|;
    ValueConcat(whole, fraction);
    ValueConcat(fraction, Zeros(k));
    ValueZeros(k);
    P.PowAdd(10, k, |fraction|);
    assert PadEnd(fraction, d) == fraction + Zeros(k);
    P.Distribute(Value(whole), Pow10(|fraction|), Value(fraction), Pow10(k));
  }

  lemma ParsedDenotes(s: string, d: nat, v: nat)
    requires ParsePayrollAmount(s, d) == Ok(v)
    ensures Denotes(s, d, v)
  {
    var whole, fraction := WholePart(s), FractionPart(s);
    ScaledValue(whole, fraction, d);
    var i := IndexOf(s, '.');
    assert if i < |s| then s == whole + "." + fraction else s == whole;
  }

  lemma DenotedParses(s: string, d: nat, whole: string, fraction: string)
    requires AllDigits(whole) && AllDigits(fraction) && whole != "" && |fraction| <= d
    requires s == whole + "." + fraction || (s == whole && fraction == "")
    ensures AllDigits(whole + fraction)
    ensures ParsePayrollAmount(s, d) == Ok(Value(whole + fraction) * Pow10(d - |fraction|))
  {
    PartsOf(whole, fraction);
    ScaledValue(whole, fraction, d);
  }

  /** Parsing accepts exactly the texts that denote something, and returns what they denote. */
  lemma ParseDenotes(s: string, d: nat, v: nat)
    ensures ParsePayrollAmount(s, d) == Ok(v) <==> Denotes(s, d, v)
  {
    if ParsePayrollAmount(s, d) == Ok(v) {
      ParsedDenotes(s, d, v);
    }
    if Denotes(s, d, v) {
      var whole: string, fraction: string :|
        && AllDigits(whole) && AllDigits(fraction) && whole != ""
        && (s == whole + "." + fraction || (s == whole && fraction == ""))
        && |fraction| <= d
        && AllDigits(whole + fraction) && v == Value(whole + fraction) * Pow10(d - |fraction|);
      DenotedParses(s, d, whole, fraction);
    }
  }

  /** The intake pattern: digits, then optionally a point and one to six digits. */
  predicate IsIntakeAmount(s: string) {
    && |WholePart(s)| >= 1 && AllDigits(WholePart(s))
    && (IndexOf(s, '.') < |s| ==> 1 <= |FractionPart(s)| <= 6 && AllDigits(FractionPart(s)))
  }

  lemma IntakeParses(s: string)
    requires IsIntakeAmount(s)
    ensures ParsePayrollAmount(s, 6).Ok?
  {
  }

  /** The value of an intake amount in millionths. */
  function Units(s: string): nat {
    var parsed := ParsePayrollAmount(s, 6);
    if parsed.Ok? then parsed.value else 0
  }

  function UnitsSum(amounts: seq<string>): nat {
    if amounts == [] then 0 else UnitsSum(amounts[..|amounts| - 1]) + Units(amounts[|amounts| - 1])
  }

  lemma SixDigits(fraction: string)
    requires |fraction| <= 6
    ensures (fraction + "000000")[..6] == PadEnd(fraction, 6)
  {
    assert Zeros(6 - |fraction|) == "000000"[..6 - |fraction|];
  }

  lemma Million()
    ensures Pow10(6) == 1_000_000
  {
    assert Pow10(3) == 1000;
    P.PowAdd(10, 3, 3);
  }

  /** The run total is the formatted sum of the parsed amounts, so parsing it gives back the sum. */
  method SumAmounts(amounts: seq<string>) returns (total: string)
    requires forall i :: 0 <= i < |amounts| ==> IsIntakeAmount(amounts[i])
    ensures total == FormatPayrollAmount(UnitsSum(amounts), 6)
    ensures ParsePayrollAmount(total, 6) == Ok(UnitsSum(amounts))
  {
    Million();
    var scaled := 0;
    for i := 0 to |amounts|
      invariant scaled == UnitsSum(amounts[..i])
    {
      assert amounts[..i + 1][..i] == amounts[..i];
      var whole, frac := WholePart(amounts[i]), FractionPart(amounts[i]);
      SixDigits(frac);
      PadEndDigits(frac, 6);
      IntakeParses(amounts[i]);
      var fracPadded := (frac + "000000")[..6];
      scaled := scaled + Value(whole) * 1_000_000 + Value(fracPadded);
    }
    assert amounts[..|amounts|] == amounts;
    var whole := scaled / 1_000_000;
    var frac := StripTrailingZeros(PadStart(ToDecimal(scaled % 1_000_000), 6));
    total := if frac == "" then ToDecimal(whole) else ToDecimal(whole) + "." + frac;
    ParseFormat(scaled, 6);
  }

  // ---------- The worker's decimals ----------

  lemma Rescale(v: nat, a: nat, b: nat, p: nat)
    ensures (v * a) * (b * p) == (v * b) * (a * p)
  {
    assert (v * a) * (b * p) == v * (a * b * p) == (v * b) * (a * p);
  }

  /**
   The worker parses an item at the decimals of its token, the intake counted it in millionths. The item parses exactly
   when it has no more decimals than the token, and then both are the same amount.
   */
  lemma WorkerAmount(s: string, d: nat)
    requires IsIntakeAmount(s)
    ensures ParsePayrollAmount(s, d).Ok? <==> |FractionPart(s)| <= d
    ensures ParsePayrollAmount(s, d).Ok? ==> ParsePayrollAmount(s, d).value * Pow10(6) == Units(s) * Pow10(d)
  {
    var whole, fraction := WholePart(s), FractionPart(s);
    var f := |fraction|;
    ScaledValue(whole, fraction, 6);
    if f <= d {
      ScaledValue(whole, fraction, d);
      P.PowAdd(10, 6 - f, f);
      P.PowAdd(10, d - f, f);
      Rescale(Value(whole + fraction), Pow10(d - f), Pow10(6 - f), Pow10(f));
    }
  }

  /** An amount in the token's units and one in millionths are the same. */
  predicate SameAmount(paid: nat, units: nat, d: nat) {
    paid * Pow10(6) == units * Pow10(d)
  }

  lemma AddProducts(a: nat, b: nat, p: nat, c: nat, e: nat, q: nat)
    requires a * p == c * q && b * p == e * q
    ensures (a + b) * p == (c + e) * q
  {
  }

  lemma SameAdd(a: nat, u: nat, b: nat, v: nat, d: nat)
    requires SameAmount(a, u, d) && SameAmount(b, v, d)
    ensures SameAmount(a + b, u + v, d)
  {
    AddProducts(a, b, Pow10(6), u, v, Pow10(d));
  }

  function WorkerUnits(s: string, d: nat): nat {
    var parsed := ParsePayrollAmount(s, d);
    if parsed.Ok? then parsed.value else 0
  }

  lemma SameUnits(s: string, d: nat)
    requires IsIntakeAmount(s) && |FractionPart(s)| <= d
    ensures SameAmount(WorkerUnits(s, d), Units(s), d)
  {
    WorkerAmount(s, d);
  }

  /** What the worker pays for amounts that all parse. */
  function WorkerSum(amounts: seq<string>, d: nat): nat {
    if amounts == [] then 0 else WorkerSum(amounts[..|amounts| - 1], d) + WorkerUnits(amounts[|amounts| - 1], d)
  }

  /** Where every amount parses at the token's decimals, what the worker pays is the intake's total. */
  lemma {:induction false} WorkerPaysTotal(amounts: seq<string>, d: nat)
    requires forall i :: 0 <= i < |amounts| ==> IsIntakeAmount(amounts[i]) && |FractionPart(amounts[i])| <= d
    ensures SameAmount(WorkerSum(amounts, d), UnitsSum(amounts), d)
  {
    if amounts != [] {
      var front, last := amounts[..|amounts| - 1], amounts[|amounts| - 1];
      WorkerPaysTotal(front, d);
      SameUnits(last, d);
      SameAdd(WorkerSum(front, d), UnitsSum(front), WorkerUnits(last, d), Units(last), d);
    }
  }

  lemma {:induction false} StripEnds(s: string)
    ensures var t := StripTrailingZeros(s); t == [] || t[|t| - 1] != '0'
  {
    if s != [] && s[|s| - 1] == '0' {
      StripEnds(s[..|s| - 1]);
    }
  }

  /** A formatted total is an intake amount of its own value, without a trailing zero. */
  lemma FormattedTotal(u: nat)
    ensures var total := FormatPayrollAmount(u, 6);
            && IsIntakeAmount(total) && Units(total) == u
            && (FractionPart(total) == [] || FractionPart(total)[|FractionPart(total)| - 1] != '0')
  {
    Pow10Positive(6);
    var scale := Pow10(6);
    var whole, padded := ToDecimal(Quotient(u, scale)), PadStart(ToDecimal(Remainder(u, scale)), 6);
    DecimalValue(Quotient(u, scale));
    PaddedDigits(Remainder(u, scale), 6);
    StripRestores(padded);
    StripEnds(padded);
    PartsOf(whole, StripTrailingZeros(padded));
    ParseFormat(u, 6);
  }

  lemma {:induction false} NoLeadingZero(n: nat)
    ensures ToDecimal(n) == "0" || ToDecimal(n)[0] != '0'
  {
    if n >= 10 {
      NoLeadingZero(n / 10);
      DecimalValue(n / 10);
      assert ToDecimal(n / 10) != "0" by {
        ValueSnoc("", '0');
        assert "" + ['0'] == "0";
      }
    }
  }

  /** A formatted amount has no leading zero, no trailing one among its decimals, and no bare point. */
  lemma FormatIsShort(n: nat, d: nat)
    ensures var text := FormatPayrollAmount(n, d);
            && (WholePart(text) == "0" || (WholePart(text) != "" && WholePart(text)[0] != '0'))
            && |FractionPart(text)| <= d && text[|text| - 1] != '.'
            && (FractionPart(text) == [] || FractionPart(text)[|FractionPart(text)| - 1] != '0')
  {
    if d == 0 {
      DecimalValue(n);
      NoLeadingZero(n);
      PartsOf(ToDecimal(n), "");
    } else {
      Pow10Positive(d);
      var scale := Pow10(d);
      var whole, padded := ToDecimal(Quotient(n, scale)), PadStart(ToDecimal(Remainder(n, scale)), d);
      DecimalValue(Quotient(n, scale));
      NoLeadingZero(Quotient(n, scale));
      PaddedDigits(Remainder(n, scale), d);
      StripRestores(padded);
      StripEnds(padded);
      PartsOf(whole, StripTrailingZeros(padded));
    }
  }

  lemma Cancel(a: nat, b: nat, p: nat)
    requires p > 0 && a * p == b * p
    ensures a == b
  {
    if a != b {
      Different(a, b, p);
    }
  }

  /** A number whose last digit is not zero is no multiple of ten. */
  lemma NoMultiple(s: string, w: nat, k: nat)
    requires AllDigits(s) && s != [] && s[|s| - 1] != '0' && k >= 1
    ensures Value(s) != w * Pow10(k)
  {
    ValueLast(s);
    P.PowAdd(10, 1, k - 1);
    assert Pow10(1) == 10 * Pow10(0) == 10;
    assert w * Pow10(k) == w * Pow10(k - 1) * 10;
    P.DivModUnique(Value(s[..|s| - 1]), DigitValue(s[|s| - 1]), 10);
    P.DivModUnique(w * Pow10(k - 1), 0, 10);
  }

  lemma MultipleRemainder(w: nat, p: nat)
    requires p > 0
    ensures Quotient(w * p, p) == w && Remainder(w * p, p) == 0
  {
    var q, r := Quotient(w * p, p), Remainder(w * p, p);
    assert q * p + r == w * p;
    if q < w {
      P.MulMonotone(q, w, p);
    } else if w < q {
      P.MulMonotone(w, q, p);
    }
  }

  lemma ParsedIsMultiple(u: nat, d: nat, w: nat)
    requires d <= 6 && w * Pow10(6) == u * Pow10(d)
    ensures u == w * Pow10(6 - d)
  {
    Pow10Positive(d);
    P.PowAdd(10, 6 - d, d);
    Reassociate(w, Pow10(6 - d), Pow10(d));
    Cancel(u, w * Pow10(6 - d), Pow10(d));
  }

  /** The run's total, in millionths, parses at fewer decimals exactly when it is a whole number of the token's units. */
  lemma TotalParsesIff(u: nat, d: nat)
    requires d <= 6
    ensures Pow10(6 - d) > 0
    ensures ParsePayrollAmount(FormatPayrollAmount(u, 6), d).Ok? <==> Remainder(u, Pow10(6 - d)) == 0
  {
    var total, p := FormatPayrollAmount(u, 6), Pow10(6 - d);
    FormattedTotal(u);
    WorkerAmount(total, d);
    Pow10Positive(6 - d);
    if ParsePayrollAmount(total, d).Ok? {
      var w := ParsePayrollAmount(total, d).value;
      ParsedIsMultiple(u, d, w);
      MultipleRemainder(w, p);
    } else if Remainder(u, p) == 0 {
      LongFraction(total, d, Quotient(u, p));
    }
  }

  /** Decimals that are not zero do not vanish in a multiple. */
  lemma LongFraction(total: string, d: nat, w: nat)
    requires IsIntakeAmount(total) && d < |FractionPart(total)|
    requires FractionPart(total)[|FractionPart(total)| - 1] != '0'
    ensures Units(total) != w * Pow10(6 - d)
  {
    var whole, fraction := WholePart(total), FractionPart(total);
    var f := |fraction|;
    ScaledValue(whole, fraction, 6);
    Pow10Positive(6 - f);
    P.PowAdd(10, f - d, 6 - f);
    NoMultiple(whole + fraction, w, f - d);
    Reassociate(w, Pow10(f - d), Pow10(6 - f));
    Different(Value(whole + fraction), w * Pow10(f - d), Pow10(6 - f));
  }

  lemma Reassociate(w: nat, a: nat, b: nat)
    ensures w * (a * b) == (w * a) * b
  {
  }

  lemma Different(a: nat, b: nat, p: nat)
    requires p > 0 && a != b
    ensures a * p != b * p
  {
    if a < b {
      P.MulMonotone(a, b, p);
    } else {
      P.MulMonotone(b, a, p);
    }
  }

  lemma HalfUnits()
    ensures Units("0.5") == 500_000 && ParsePayrollAmount("0.5", 0) == Err(ExceedsDecimals)
  {
    PartsOf("0", "5");
    assert "0.5" == "0" + "." + "5";
    ScaledValue("0", "5", 6);
    ValueSnoc("", '0');
    ValueSnoc("0", '5');
    assert "" + ['0'] == "0" && "0" + ['5'] == "0" + "5";
    P.PowAdd(10, 2, 3);
    assert Pow10(2) == 100 && Pow10(3) == 1000;
  }

  lemma OneWhole()
    ensures ParsePayrollAmount(FormatPayrollAmount(1_000_000, 6), 0) == Ok(1)
  {
    var total := FormatPayrollAmount(1_000_000, 6);
    Million();
    MultipleRemainder(1, 1_000_000);
    TotalParsesIff(1_000_000, 0);
    FormattedTotal(1_000_000);
    WorkerAmount(total, 0);
    ParsedIsMultiple(1_000_000, 0, ParsePayrollAmount(total, 0).value);
    Cancel(1, ParsePayrollAmount(total, 0).value, 1_000_000);
  }

  /** Two halves of a token without decimals: the total parses, so the run can start, and no item does. */
  lemma HalvesAddUp()
    ensures UnitsSum(["0.5", "0.5"]) == 1_000_000
    ensures ParsePayrollAmount(FormatPayrollAmount(1_000_000, 6), 0) == Ok(1)
    ensures ParsePayrollAmount("0.5", 0) == Err(ExceedsDecimals)
  {
    HalfUnits();
    OneWhole();
    var amounts := ["0.5", "0.5"];
    assert amounts[..1] == ["0.5"] && amounts[..1][..0] == [];
    assert UnitsSum(amounts[..1]) == UnitsSum([]) + Units("0.5");
  }
}
