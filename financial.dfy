/** Validation of money amounts typed by users. */
module Financial {
  import opened Common
  import opened Text
  import opened Decimals
  import opened Validation

  /** The largest whole amount accepted: `Decimal::from(999_999_999)`. */
  const MaxAmount := 999_999_999

  /** `validate_amount`: sanitise, parse, then require a positive value with
      at most two written decimal places and no more than `MaxAmount`. */
  function ValidateAmount(amount: string): (r: Result<Decimal>)
    ensures r.Ok? <==>
              && Parse(SanitizeString(amount)).Some?
              && IsPositive(Parse(SanitizeString(amount)).value)
              && Parse(SanitizeString(amount)).value.scale <= 2
              && !GreaterThanInt(Parse(SanitizeString(amount)).value, MaxAmount)
    ensures r.Ok? ==> Parse(SanitizeString(amount)) == Some(r.value)
                      && 0.0 < Value(r.value) <= MaxAmount as real
    ensures SanitizeString(amount) == [] ==> r == Err("Amount is required")
    ensures SanitizeString(amount) != [] && Parse(SanitizeString(amount)).None? ==>
              r == Err("Invalid amount format. Please use numbers and a decimal point (e.g., 10.50)")
    ensures Parse(SanitizeString(amount)).Some? && !IsPositive(Parse(SanitizeString(amount)).value) ==>
              r == Err("Amount must be greater than zero")
    ensures Parse(SanitizeString(amount)).Some? && IsPositive(Parse(SanitizeString(amount)).value)
            && Parse(SanitizeString(amount)).value.scale > 2 ==>
              r == Err("Amount can have at most 2 decimal places")
    ensures Parse(SanitizeString(amount)).Some? && IsPositive(Parse(SanitizeString(amount)).value)
            && Parse(SanitizeString(amount)).value.scale <= 2
            && GreaterThanInt(Parse(SanitizeString(amount)).value, MaxAmount) ==>
              r == Err("Amount is too large. Maximum is 999,999,999.99")
  {
    var sanitized := SanitizeString(amount);
    if sanitized == [] then
      Err("Amount is required")
    else
      match Parse(sanitized)
      case None =>
        Err("Invalid amount format. Please use numbers and a decimal point (e.g., 10.50)")
      case Some(d) =>
        if !IsPositive(d) then
          Err("Amount must be greater than zero")
        else if d.scale > 2 then
          Err("Amount can have at most 2 decimal places")
        else if GreaterThanInt(d, MaxAmount) then
          Err("Amount is too large. Maximum is 999,999,999.99")
        else
          IsPositiveValue(d);
          GreaterThanIntValue(d, MaxAmount);
          Ok(d)
  }

  /** The characters a decimal's text form is made of. */
  predicate NumericText(s: string) {
    forall i :: 0 <= i < |s| ==> IsAsciiDigit(s[i]) || s[i] == '.' || s[i] == '-'
  }

  lemma NumericAppend(a: string, b: string)
    requires NumericText(a) && NumericText(b)
    ensures NumericText(a + b)
  {
    assert forall i :: 0 <= i < |a + b| ==> (a + b)[i] == if i < |a| then a[i] else b[i - |a|];
  }

  /** A decimal's text is one word of printable characters, so sanitising
      it changes nothing. */
  lemma SanitizeDecimalText(d: Decimal)
    ensures SanitizeString(ToString(d)) == ToString(d)
  {
    BodyNumeric(d);
    assert NumericText(SignText(d.mantissa));
    NumericAppend(SignText(d.mantissa), InsertPoint(MantissaDigits(d), d.scale));
    var s := ToString(d);
    assert Sanitized(s);
    SanitizeFixpoint(s);
  }

  /** The digits with the point put in are numeric text. */
  lemma BodyNumeric(d: Decimal)
    ensures NumericText(InsertPoint(MantissaDigits(d), d.scale))
  {
    var digits := MantissaDigits(d);
    assert NumericText(digits);
    if d.scale > 0 {
      assert NumericText(digits[..|digits| - d.scale]) && NumericText(digits[|digits| - d.scale..]);
      NumericAppend(digits[..|digits| - d.scale], ".");
      NumericAppend(digits[..|digits| - d.scale] + ".", digits[|digits| - d.scale..]);
    }
  }

  /** Every amount the checks admit is accepted when written out: a
      positive decimal with at most two places and at most `MaxAmount`
      validates to itself, scale included ("10.50" stays 1050×10^-2). */
  lemma ValidateAmountAccepts(d: Decimal)
    requires IsPositive(d) && d.scale <= 2 && !GreaterThanInt(d, MaxAmount)
    ensures ValidateAmount(ToString(d)) == Ok(d)
  {
    SanitizeDecimalText(d);
    ParseToString(d);
  }

  /** Three places are refused even when the last is zero: "10.500". */
  lemma ValidateAmountScale()
    ensures ValidateAmount(ToString(Decimal(10500, 3))) == Err("Amount can have at most 2 decimal places")
    ensures ValidateAmount(ToString(Decimal(1, 3))) == Err("Amount can have at most 2 decimal places")
  {
    SanitizeDecimalText(Decimal(10500, 3));
    ParseToString(Decimal(10500, 3));
    SanitizeDecimalText(Decimal(1, 3));
    ParseToString(Decimal(1, 3));
  }

  /** The cap is the whole number 999,999,999, not the 999,999,999.99 the
      error message and documentation name: 999,999,999.50 is refused. */
  lemma ValidateAmountCapIsWhole()
    ensures ValidateAmount(ToString(Decimal(99999999950, 2))) == Err("Amount is too large. Maximum is 999,999,999.99")
    ensures ValidateAmount(ToString(Decimal(999999999, 0))) == Ok(Decimal(999999999, 0))
  {
    SanitizeDecimalText(Decimal(99999999950, 2));
    ParseToString(Decimal(99999999950, 2));
    ValidateAmountAccepts(Decimal(999999999, 0));
  }

  /** Zero and negative amounts are refused. */
  lemma ValidateAmountNotPositive(d: Decimal)
    requires d.mantissa <= 0
    ensures ValidateAmount(ToString(d)) == Err("Amount must be greater than zero")
  {
    var s := ToString(d);
    SanitizeDecimalText(d);
    ParseToString(d);
    assert s != [] by {
      assert |InsertPoint(MantissaDigits(d), d.scale)| > 0;
      assert |s| >= |InsertPoint(MantissaDigits(d), d.scale)|;
    }
    assert !IsPositive(d);
  }
}
