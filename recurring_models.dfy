/** The recurring-debt model types: the `Frequency` enum with its text
    conversions, and the parsed `RecurringDebt` record the schedule logic
    works on. */
module RecurringModels {
  import opened Common
  import opened Text
  import opened Decimals
  import opened Dates

  datatype Frequency = Daily | Weekly | Monthly | Yearly

  /** `Frequency::as_str`: the lower-case name stored in the database. */
  function AsStr(f: Frequency): (r: string)
    ensures |r| > 0
    ensures forall i :: 0 <= i < |r| ==> IsAsciiLower(r[i])
  {
    match f
    case Daily => "daily"
    case Weekly => "weekly"
    case Monthly => "monthly"
    case Yearly => "yearly"
  }

  /** `Frequency::label`: the name shown to users, a capitalised word. */
  function Label(f: Frequency): (r: string)
    ensures |r| > 0 && IsAsciiUpper(r[0])
    ensures forall i :: 1 <= i < |r| ==> IsAsciiLower(r[i])
  {
    match f
    case Daily => "Daily"
    case Weekly => "Weekly"
    case Monthly => "Monthly"
    case Yearly => "Yearly"
  }

  /** `Display for Frequency`: writes `as_str`, so the displayed text
      parses back to the same frequency. */
  function Display(f: Frequency): (r: string)
    ensures FromStr(r) == Ok(f)
  {
    ToLowerOfLower(AsStr(f));
    AsStr(f)
  }

  /** `Frequency::from_str`: the lower-cased input must be one of the four
      names; the error message quotes the input as given. */
  function FromStr(s: string): (r: Result<Frequency>)
    ensures r.Ok? <==> exists f :: ToLower(s) == AsStr(f)
    ensures r.Ok? ==> AsStr(r.value) == ToLower(s)
    ensures r.Err? ==> r.error == "Invalid frequency: " + s
  {
    var lower := ToLower(s);
    if lower == "daily" then assert lower == AsStr(Daily); Ok(Daily)
    else if lower == "weekly" then assert lower == AsStr(Weekly); Ok(Weekly)
    else if lower == "monthly" then assert lower == AsStr(Monthly); Ok(Monthly)
    else if lower == "yearly" then assert lower == AsStr(Yearly); Ok(Yearly)
    else
      assert forall f :: ToLower(s) != AsStr(f);
      Err("Invalid frequency: " + s)
  }

  lemma ToLowerOfLower(s: string)
    requires forall i :: 0 <= i < |s| ==> IsAsciiLower(s[i])
    ensures ToLower(s) == s
  {
  }

  /** Every frequency parses back from its stored name. */
  lemma FromStrAsStr(f: Frequency)
    ensures FromStr(AsStr(f)) == Ok(f)
    ensures FromStr(Display(f)) == Ok(f)
  {
    ToLowerOfLower(AsStr(f));
  }

  /** The stored names are pairwise distinct, so the name determines the
      frequency. */
  lemma AsStrInjective(f: Frequency, g: Frequency)
    requires AsStr(f) == AsStr(g)
    ensures f == g
  {
    FromStrAsStr(f);
    FromStrAsStr(g);
  }

  /** The label is the name with its first letter in upper case. */
  lemma LabelCapitalises(f: Frequency)
    ensures |Label(f)| == |AsStr(f)| > 0
    ensures Label(f)[0] == ToUpperChar(AsStr(f)[0])
    ensures Label(f)[1..] == AsStr(f)[1..]
  {
  }

  /** Parsing ignores case: "Monthly" and "MONTHLY" are monthly. */
  lemma FromStrIgnoresCase()
    ensures FromStr("Monthly") == Ok(Monthly)
    ensures FromStr("MONTHLY") == Ok(Monthly)
    ensures FromStr("fortnightly") == Err("Invalid frequency: fortnightly")
  {
    LowerMonthly();
    ParsesAs("Monthly", Monthly);
    ParsesAs("MONTHLY", Monthly);
    UnknownName();
  }

  lemma LowerMonthly()
    ensures ToLower("Monthly") == "monthly" && ToLower("MONTHLY") == "monthly"
  {
    assert ToLower("Monthly") == "monthly";
    assert ToLower("MONTHLY") == "monthly";
  }

  lemma ParsesAs(s: string, f: Frequency)
    requires ToLower(s) == AsStr(f)
    ensures FromStr(s) == Ok(f)
  {
    if FromStr(s).Ok? {
      AsStrInjective(FromStr(s).value, f);
    }
  }

  lemma UnknownName()
    ensures FromStr("fortnightly") == Err("Invalid frequency: fortnightly")
  {
    ToLowerOfLower("fortnightly");
  }

  /** `RecurringDebt` once its TEXT columns have been parsed. */
  datatype RecurringDebt = RecurringDebt(
    id: int,
    groupId: int,
    createdBy: int,
    name: string,
    amount: Decimal,
    frequency: Frequency,
    startDate: Date,
    endDate: Option<Date>,
    nextGenerationDate: Date,
    isActive: bool)

  /** Its dates are calendar dates. */
  predicate DatesValid(r: RecurringDebt) {
    Valid(r.startDate) && Valid(r.nextGenerationDate) && (r.endDate.Some? ==> Valid(r.endDate.value))
  }
}
