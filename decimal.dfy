/** The `rust_decimal::Decimal` values the system stores as TEXT: a signed
    integer mantissa with a decimal scale, parsed from and printed to decimal
    strings, and rounded with `round_dp` (midpoint to even). */
module Decimals {
  import opened Common
  import opened Text

  /** mantissa × 10^-scale; the scale is kept as written ("10.500" has scale 3). */
  datatype Decimal = Decimal(mantissa: int, scale: nat)

  const Zero := Decimal(0, 0)

  /** The exact number a decimal denotes. */
  function Value(d: Decimal): real {
    d.mantissa as real / Pow10(d.scale) as real
  }

  lemma ZeroValue(scale: nat)
    ensures Value(Decimal(0, scale)) == 0.0
  {
    assert Pow10(scale) as real > 0.0;
  }

  /** `d > Decimal::ZERO`. */
  predicate IsPositive(d: Decimal) {
    d.mantissa > 0
  }

  lemma IsPositiveValue(d: Decimal)
    ensures IsPositive(d) <==> Value(d) > 0.0
  {
  }

  /** `d > Decimal::from(n)`. */
  predicate GreaterThanInt(d: Decimal, n: int) {
    d.mantissa > n * Pow10(d.scale)
  }

  lemma GreaterThanIntValue(d: Decimal, n: int)
    ensures GreaterThanInt(d, n) <==> Value(d) > n as real
  {
    var p := Pow10(d.scale) as real;
    assert Value(d) * p == d.mantissa as real;
    if GreaterThanInt(d, n) {
      assert d.mantissa as real > n as real * p;
    } else {
      assert d.mantissa as real <= n as real * p;
    }
  }

  function Magnitude(m: int): nat {
    if m < 0 then -m else m
  }

  // ---------------------------------------------------------------------
  // Text form
  // ---------------------------------------------------------------------

  /** The text of a parse error, which some messages quote. */
  const ParseErrorMessage := "Invalid decimal: unknown character"

  /** `s.parse::<Decimal>()` for the grammar `[+-]? digit+ ('.' digit+)?`;
      the scale is the number of digits written after the point. */
  function Parse(s: string): Option<Decimal> {
    var negative := s != [] && s[0] == '-';
    var body := if s != [] && (s[0] == '-' || s[0] == '+') then s[1..] else s;
    match ParseUnsigned(body)
    case None => None
    case Some(u) => Some(Decimal(if negative then -u.mantissa else u.mantissa, u.scale))
  }

  /** The unsigned part `digit+ ('.' digit+)?`: the mantissa is the number
      all the digits spell once the point is dropped. */
  function ParseUnsigned(body: string): (r: Option<Decimal>)
    ensures r.Some? ==> r.value.mantissa >= 0
  {
    var dot := IndexOf(body, '.');
    var whole := body[..dot];
    var fraction := if dot < |body| then body[dot + 1..] else [];
    if whole == [] || !AllDigits(whole) || (dot < |body| && (fraction == [] || !AllDigits(fraction))) then
      None
    else
      assert AllDigits(whole + fraction);
      Some(Decimal(DigitsValue(whole + fraction), |fraction|))
  }

  /** `Decimal::to_string`: an optional minus sign, then the digits of the
      mantissa, zero-padded so that at least one digit precedes the point,
      with the point placed before the last `scale` digits. */
  function ToString(d: Decimal): string {
    SignText(d.mantissa) + InsertPoint(MantissaDigits(d), d.scale)
  }

  function SignText(m: int): string {
    if m < 0 then "-" else ""
  }

  /** The magnitude's digits, at least `scale + 1` of them. */
  function MantissaDigits(d: Decimal): (r: string)
    ensures AllDigits(r) && |r| > d.scale
  {
    var m := Magnitude(d.mantissa);
    PadDigits(m, if NumDigits(m) > d.scale then NumDigits(m) else d.scale + 1)
  }

  function InsertPoint(digits: string, scale: nat): string
    requires |digits| > scale
  {
    if scale == 0 then digits
    else digits[..|digits| - scale] + "." + digits[|digits| - scale..]
  }

  lemma MantissaDigitsValue(d: Decimal)
    ensures DigitsValue(MantissaDigits(d)) == Magnitude(d.mantissa)
  {
    var m := Magnitude(d.mantissa);
    var width := if NumDigits(m) > d.scale then NumDigits(m) else d.scale + 1;
    Pow10Monotone(NumDigits(m), width);
    PadDigitsValue(m, width);
  }

  lemma NoDot(w: string)
    requires AllDigits(w)
    ensures IndexOf(w, '.') == |w|
  {
  }

  lemma ParseWhole(digits: string)
    requires AllDigits(digits) && digits != []
    ensures ParseUnsigned(digits) == Some(Decimal(DigitsValue(digits), 0))
  {
    NoDot(digits);
    assert digits[..|digits|] == digits;
    assert digits + [] == digits;
  }

  lemma ParseWithFraction(w: string, fr: string)
    requires AllDigits(w) && AllDigits(fr) && w != [] && fr != []
    ensures ParseUnsigned(w + "." + fr) == Some(Decimal(DigitsValue(w + fr), |fr|))
  {
    var body := w + "." + fr;
    NoDot(w);
    assert IndexOf(body, '.') == |w| by {
      forall j | 0 <= j < |w| ensures body[j] != '.' {
        assert body[j] == w[j];
      }
      assert body[|w|] == '.';
    }
    assert body[..|w|] == w;
    assert body[|w| + 1..] == fr;
  }

  /** Digits with the point put back parse to the number they spell. */
  lemma ParseInsertPoint(digits: string, scale: nat)
    requires AllDigits(digits) && |digits| > scale
    ensures ParseUnsigned(InsertPoint(digits, scale)) == Some(Decimal(DigitsValue(digits), scale))
  {
    if scale == 0 {
      ParseWhole(digits);
      assert InsertPoint(digits, scale) == digits;
    } else {
      ParseFraction(digits, scale);
    }
  }

  lemma ParseFraction(digits: string, scale: nat)
    requires AllDigits(digits) && |digits| > scale > 0
    ensures ParseUnsigned(InsertPoint(digits, scale)) == Some(Decimal(DigitsValue(digits), scale))
  {
    var k := |digits| - scale;
    DigitsSlice(digits, k);
    ParseSplitDigits(digits, digits[..k], digits[k..]);
  }

  lemma ParseSplitDigits(digits: string, w: string, fr: string)
    requires AllDigits(w) && AllDigits(fr) && w != [] && fr != [] && w + fr == digits
    ensures ParseUnsigned(w + "." + fr) == Some(Decimal(DigitsValue(digits), |fr|))
  {
    ParseWithFraction(w, fr);
  }

  /** Both sides of a cut through digits are digits, and together they
      are the whole. */
  lemma DigitsSlice(s: string, k: nat)
    requires AllDigits(s) && k <= |s|
    ensures AllDigits(s[..k]) && AllDigits(s[k..]) && s[..k] + s[k..] == s
  {
    forall i | 0 <= i < |s| - k ensures IsAsciiDigit(s[k..][i]) {
      assert s[k..][i] == s[k + i];
    }
  }

  lemma ParseSigned(body: string, m: int, scale: nat)
    requires ParseUnsigned(body) == Some(Decimal(Magnitude(m), scale))
    requires body != [] && IsAsciiDigit(body[0])
    ensures Parse(SignText(m) + body) == Some(Decimal(m, scale))
  {
    if m < 0 {
      ParseNegative(body, m, scale);
    } else {
      assert SignText(m) + body == body;
    }
  }

  lemma ParseNegative(body: string, m: int, scale: nat)
    requires ParseUnsigned(body) == Some(Decimal(Magnitude(m), scale))
    requires body != [] && IsAsciiDigit(body[0]) && m < 0
    ensures Parse("-" + body) == Some(Decimal(m, scale))
  {
    assert ("-" + body)[1..] == body;
  }

  lemma ParseUnsignedText(d: Decimal)
    ensures ParseUnsigned(InsertPoint(MantissaDigits(d), d.scale)) == Some(Decimal(Magnitude(d.mantissa), d.scale))
  {
    ParseInsertPoint(MantissaDigits(d), d.scale);
    MantissaDigitsValue(d);
  }

  /** Every decimal survives the trip through its text form unchanged:
      mantissa and scale, so "10.50" stays 1050×10^-2. */
  lemma ParseToString(d: Decimal)
    ensures Parse(ToString(d)) == Some(d)
  {
    var digits := MantissaDigits(d);
    var body := InsertPoint(digits, d.scale);
    ParseUnsignedText(d);
    assert body[0] == digits[0];
    ParseSigned(body, d.mantissa, d.scale);
  }

  // ---------------------------------------------------------------------
  // round_dp: midpoint-to-even rounding
  // ---------------------------------------------------------------------

  /** n / d rounded to the nearest integer, a tie going to the even one. */
  function RoundHalfEven(n: int, d: int): (q: int)
    requires d > 0
    ensures -d <= 2 * (n - q * d) <= d
    ensures 2 * (n - q * d) == d || 2 * (n - q * d) == -d ==> q % 2 == 0
  {
    var f := n / d;
    var r := n % d;
    FloorRemainders(n, d);
    if 2 * r < d then f
    else if 2 * r > d then f + 1
    else if f % 2 == 0 then f
    else f + 1
  }

  /** What is left of n after taking away the floor quotient's multiple
      of d, or one multiple more. */
  lemma FloorRemainders(n: int, d: int)
    requires d > 0
    ensures n - (n / d) * d == n % d
    ensures n - (n / d + 1) * d == n % d - d
  {
    var f := n / d;
    assert n == f * d + n % d;
    assert (f + 1) * d == f * d + d;
  }

  lemma MulAtLeastTwice(x: int, d: int)
    requires x >= 2 && d > 0
    ensures x * d >= 2 * d
  {
  }

  lemma MulAtMostMinusTwice(x: int, d: int)
    requires x <= -2 && d > 0
    ensures x * d <= -2 * d
  {
  }

  /** Two candidates within half a step of n differ by at most one step, and
      by exactly one only when both sit on the midpoint. */
  lemma TwoNearest(e: int, e0: int, d: int, x: int)
    requires d > 0 && -d <= 2 * e <= d && -d <= 2 * e0 <= d
    requires e - e0 == x * d
    ensures x == 0 || (x == 1 && 2 * e0 == -d) || (x == -1 && 2 * e0 == d)
  {
    if x >= 2 {
      MulAtLeastTwice(x, d);
    } else if x <= -2 {
      MulAtMostMinusTwice(x, d);
    }
  }

  /** The contract of RoundHalfEven determines its result: there is only one
      nearest integer, and at a tie only one of the two is even. */
  lemma RoundHalfEvenUnique(n: int, d: int, q: int)
    requires d > 0
    requires -d <= 2 * (n - q * d) <= d
    requires 2 * (n - q * d) == d || 2 * (n - q * d) == -d ==> q % 2 == 0
    ensures q == RoundHalfEven(n, d)
  {
    var q0 := RoundHalfEven(n, d);
    assert (n - q * d) - (n - q0 * d) == (q0 - q) * d;
    TwoNearest(n - q * d, n - q0 * d, d, q0 - q);
  }

  /** `round_dp(2)`: a decimal with at most two places is returned unchanged,
      any other is rescaled to two places rounding midpoint-to-even. */
  function RoundDp2(d: Decimal): (r: Decimal)
    ensures r.scale <= 2 && r.scale <= d.scale
    ensures d.scale <= 2 ==> r == d
  {
    if d.scale <= 2 then d
    else Decimal(RoundHalfEven(d.mantissa, Pow10(d.scale - 2)), 2)
  }

  lemma DivBound(e: real, k: real)
    requires k > 0.0 && -k <= 2.0 * e <= k
    ensures -1.0 / 200.0 <= e / (k * 100.0) <= 1.0 / 200.0
  {
  }

  lemma Regroup(a: real, b: real, k: real)
    requires k > 0.0
    ensures a / 100.0 - b / (k * 100.0) == (a * k - b) / (k * 100.0)
  {
  }

  /** q/100 is within 1/200 of m/(100k) when q·k is within k/2 of m. */
  lemma WithinHalfCent(m: int, q: int, k: int)
    requires k > 0 && -k <= 2 * (m - q * k) <= k
    ensures -1.0 / 200.0 <= q as real / 100.0 - m as real / (k as real * 100.0) <= 1.0 / 200.0
  {
    Regroup(q as real, m as real, k as real);
    assert (q * k - m) as real == q as real * k as real - m as real;
    DivBound((q * k - m) as real, k as real);
  }

  /** The rounded value is within half a cent of the original. */
  lemma RoundDp2Close(d: Decimal)
    ensures -1.0 / 200.0 <= Value(RoundDp2(d)) - Value(d) <= 1.0 / 200.0
  {
    if d.scale > 2 {
      var k := Pow10(d.scale - 2);
      Pow10Add(d.scale - 2, 2);
      assert Pow10(d.scale) == k * 100;
      WithinHalfCent(d.mantissa, RoundDp2(d).mantissa, k);
    }
  }

  /** Rounding twice is rounding once. */
  lemma RoundDp2Idempotent(d: Decimal)
    ensures RoundDp2(RoundDp2(d)) == RoundDp2(d)
  {
  }

  /** "0.001" is positive, yet it rounds to 0.00. */
  lemma RoundDp2CanReachZero()
    ensures Parse("0.001") == Some(Decimal(1, 3))
    ensures IsPositive(Decimal(1, 3)) && RoundDp2(Decimal(1, 3)) == Decimal(0, 2)
  {
    ParseThousandth();
    RoundThousandth();
  }

  lemma ParseThousandth()
    ensures Parse("0.001") == Some(Decimal(1, 3))
  {
    ParseThousandthUnsigned();
    assert "0.001"[0] == '0';
  }

  lemma ParseThousandthUnsigned()
    ensures ParseUnsigned("0.001") == Some(Decimal(1, 3))
  {
    ParseWithFraction("0", "001");
    assert "0" + "." + "001" == "0.001" && "0" + "001" == "0001";
    ThousandthDigits();
  }

  lemma ThousandthDigits()
    ensures AllDigits("0001") && DigitsValue("0001") == 1
  {
    assert "0001"[..3] == "000" && "000"[..2] == "00" && "00"[..1] == "0";
  }

  lemma RoundThousandth()
    ensures IsPositive(Decimal(1, 3)) && RoundDp2(Decimal(1, 3)) == Decimal(0, 2)
  {
    assert Pow10(1) == 10;
  }
}
