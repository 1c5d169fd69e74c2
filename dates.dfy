/** Calendar dates as the `time` crate's `Date` holds them (proleptic
    Gregorian, no time of day), their `YYYY-MM-DD` text form, and the
    saturating day arithmetic `Date::saturating_add` performs. */
module Dates {
  import opened Common
  import opened Text

  datatype Date = Date(year: int, month: int, day: int)

  /** Gregorian leap year rule. */
  predicate IsLeap(y: int) {
    y % 4 == 0 && (y % 100 != 0 || y % 400 == 0)
  }

  /** `Month::length(year)`. */
  function MonthLength(y: int, m: int): (n: int)
    requires 1 <= m <= 12
    ensures 28 <= n <= 31
  {
    if m == 2 then (if IsLeap(y) then 29 else 28)
    else if m == 4 || m == 6 || m == 9 || m == 11 then 30
    else 31
  }

  function YearLength(y: int): int {
    if IsLeap(y) then 366 else 365
  }

  /** Years 0000 to 9999: every date the `YYYY-MM-DD` form can spell, and
      `Date::MAX` (9999-12-31) of the crate's default build as upper end. */
  predicate Valid(d: Date) {
    0 <= d.year <= 9999 && 1 <= d.month <= 12 && 1 <= d.day <= MonthLength(d.year, d.month)
  }

  const MaxDate := Date(9999, 12, 31)

  // ---------------------------------------------------------------------
  // Day numbers: the reference the step functions are measured against
  // ---------------------------------------------------------------------

  /** Days in the years 0 .. y-1. */
  function DaysBeforeYear(y: nat): nat {
    365 * y + (y + 3) / 4 - (y + 99) / 100 + (y + 399) / 400
  }

  /** Days in the months 1 .. m-1 of year y. */
  function DaysBeforeMonth(y: int, m: int): (n: nat)
    requires 1 <= m <= 12
  {
    var common :=
      if m == 1 then 0 else if m == 2 then 31 else if m == 3 then 59
      else if m == 4 then 90 else if m == 5 then 120 else if m == 6 then 151
      else if m == 7 then 181 else if m == 8 then 212 else if m == 9 then 243
      else if m == 10 then 273 else if m == 11 then 304 else 334;
    if m > 2 && IsLeap(y) then common + 1 else common
  }

  /** Days from 0000-01-01 to d. */
  function Ordinal(d: Date): nat
    requires Valid(d)
  {
    DaysBeforeYear(d.year) + DaysBeforeMonth(d.year, d.month) + d.day - 1
  }

  lemma Quarter(y: nat)
    ensures (y + 4) / 4 == (y + 3) / 4 + (if y % 4 == 0 then 1 else 0)
  {
  }

  lemma Century(y: nat)
    ensures (y + 100) / 100 == (y + 99) / 100 + (if y % 100 == 0 then 1 else 0)
  {
  }

  lemma FourCenturies(y: nat)
    ensures (y + 400) / 400 == (y + 399) / 400 + (if y % 400 == 0 then 1 else 0)
  {
  }

  lemma DaysBeforeYearStep(y: nat)
    ensures DaysBeforeYear(y + 1) == DaysBeforeYear(y) + YearLength(y)
  {
    Quarter(y);
    Century(y);
    FourCenturies(y);
    Divisors(y);
  }

  /** 4 divides 100, which divides 400. */
  lemma Divisors(y: nat)
    ensures y % 100 == 0 ==> y % 4 == 0
    ensures y % 400 == 0 ==> y % 100 == 0
  {
    if y % 100 == 0 {
      var q := y / 100;
      assert y == 4 * (25 * q);
    }
    if y % 400 == 0 {
      var q := y / 400;
      assert y == 100 * (4 * q);
    }
  }

  lemma DaysBeforeMonthStep(y: int, m: int)
    requires 1 <= m < 12
    ensures DaysBeforeMonth(y, m + 1) == DaysBeforeMonth(y, m) + MonthLength(y, m)
  {
  }

  lemma DaysInLastMonth(y: int)
    ensures DaysBeforeMonth(y, 12) + MonthLength(y, 12) == YearLength(y)
  {
  }

  /** A valid date lies inside its year. */
  lemma OrdinalInYear(d: Date)
    requires Valid(d)
    ensures DaysBeforeYear(d.year) <= Ordinal(d) < DaysBeforeYear(d.year) + YearLength(d.year)
  {
  }

  lemma DaysBeforeYearMonotone(a: nat, b: nat)
    requires a < b
    ensures DaysBeforeYear(a) + YearLength(a) <= DaysBeforeYear(b)
  {
    DaysBeforeYearStep(a);
  }

  // ---------------------------------------------------------------------
  // Order
  // ---------------------------------------------------------------------

  /** `a < b` on `Date`: year, then month, then day. */
  predicate Before(a: Date, b: Date) {
    a.year < b.year
    || (a.year == b.year && a.month < b.month)
    || (a.year == b.year && a.month == b.month && a.day < b.day)
  }

  lemma MonthOrder(y: int, m1: int, m2: int)
    requires 1 <= m1 < m2 <= 12
    ensures DaysBeforeMonth(y, m1) + MonthLength(y, m1) <= DaysBeforeMonth(y, m2)
  {
  }

  /** The order on dates is the order of their day numbers. */
  lemma BeforeOrdinal(a: Date, b: Date)
    requires Valid(a) && Valid(b)
    ensures Before(a, b) <==> Ordinal(a) < Ordinal(b)
  {
    if a.year < b.year {
      OrdinalInYear(a);
      OrdinalInYear(b);
      DaysBeforeYearMonotone(a.year, b.year);
    } else if b.year < a.year {
      OrdinalInYear(a);
      OrdinalInYear(b);
      DaysBeforeYearMonotone(b.year, a.year);
    } else if a.month < b.month {
      MonthOrder(a.year, a.month, b.month);
    } else if b.month < a.month {
      MonthOrder(a.year, b.month, a.month);
    }
  }

  /** Distinct valid dates have distinct day numbers. */
  lemma OrdinalInjective(a: Date, b: Date)
    requires Valid(a) && Valid(b) && Ordinal(a) == Ordinal(b)
    ensures a == b
  {
    BeforeOrdinal(a, b);
    BeforeOrdinal(b, a);
  }

  // ---------------------------------------------------------------------
  // Day steps
  // ---------------------------------------------------------------------

  /** `date.saturating_add(Duration::days(1))`: the following day, or
      `Date::MAX` itself when there is none. */
  function NextDay(d: Date): (r: Date)
    requires Valid(d)
    ensures Valid(r)
  {
    if d.day < MonthLength(d.year, d.month) then Date(d.year, d.month, d.day + 1)
    else if d.month < 12 then Date(d.year, d.month + 1, 1)
    else if d.year < 9999 then Date(d.year + 1, 1, 1)
    else d
  }

  lemma NextDayOrdinal(d: Date)
    requires Valid(d)
    ensures d == MaxDate ==> NextDay(d) == d
    ensures d != MaxDate ==> Ordinal(NextDay(d)) == Ordinal(d) + 1
  {
    if d.day == MonthLength(d.year, d.month) {
      if d.month < 12 {
        DaysBeforeMonthStep(d.year, d.month);
      } else if d.year < 9999 {
        DaysBeforeYearStep(d.year);
        DaysInLastMonth(d.year);
      }
    }
  }

  lemma MaxDateIsLast(d: Date)
    requires Valid(d)
    ensures Ordinal(d) <= Ordinal(MaxDate)
    ensures Ordinal(d) == Ordinal(MaxDate) ==> d == MaxDate
  {
    BeforeOrdinal(d, MaxDate);
    BeforeOrdinal(MaxDate, d);
  }

  /** `date.saturating_add(Duration::days(n))` for n ≥ 0, one day at a time. */
  function AddDays(d: Date, n: nat): (r: Date)
    requires Valid(d)
    ensures Valid(r)
    decreases n
  {
    if n == 0 then d else AddDays(NextDay(d), n - 1)
  }

  /** Adding n days moves the day number by n, stopping at `Date::MAX`. */
  lemma {:induction false} AddDaysOrdinal(d: Date, n: nat)
    requires Valid(d)
    ensures Ordinal(AddDays(d, n)) ==
              if Ordinal(d) + n <= Ordinal(MaxDate) then Ordinal(d) + n else Ordinal(MaxDate)
    decreases n
  {
    if n > 0 {
      NextDayOrdinal(d);
      MaxDateIsLast(d);
      AddDaysOrdinal(NextDay(d), n - 1);
      ClampStep(Ordinal(d), Ordinal(NextDay(d)), Ordinal(AddDays(NextDay(d), n - 1)), n, Ordinal(MaxDate));
    }
  }

  /** The day-number arithmetic of one step of `AddDays`. */
  lemma ClampStep(o: int, next: int, res: int, n: nat, last: int)
    requires n > 0 && o <= last
    requires (o == last && next == last) || (o < last && next == o + 1)
    requires res == if next + (n - 1) <= last then next + (n - 1) else last
    ensures res == if o + n <= last then o + n else last
  {
  }

  // ---------------------------------------------------------------------
  // Text form
  // ---------------------------------------------------------------------

  /** `Date`'s `Display`: `YYYY-MM-DD`, zero-padded. */
  function Format(d: Date): (s: string)
    requires Valid(d)
    ensures |s| == 10
  {
    PadDigits(d.year, 4) + "-" + PadDigits(d.month, 2) + "-" + PadDigits(d.day, 2)
  }

  /** `Date::parse(s, Iso8601::DEFAULT)` restricted to calendar dates
      written `YYYY-MM-DD`; anything else, or a day the month does not
      have, is an error. */
  function Parse(s: string): Option<Date> {
    if |s| != 10 || s[4] != '-' || s[7] != '-'
       || !AllDigits(s[..4]) || !AllDigits(s[5..7]) || !AllDigits(s[8..]) then
      None
    else
      var d := Date(DigitsValue(s[..4]), DigitsValue(s[5..7]), DigitsValue(s[8..]));
      if Valid(d) then Some(d) else None
  }

  lemma FormatParts(d: Date)
    requires Valid(d)
    ensures Format(d)[..4] == PadDigits(d.year, 4)
    ensures Format(d)[4] == '-' && Format(d)[7] == '-'
    ensures Format(d)[5..7] == PadDigits(d.month, 2)
    ensures Format(d)[8..] == PadDigits(d.day, 2)
  {
  }

  /** Every date parses back from its text form. */
  lemma ParseFormat(d: Date)
    requires Valid(d)
    ensures Parse(Format(d)) == Some(d)
  {
    FormatParts(d);
    PadDigitsValue(d.year, 4);
    PadDigitsValue(d.month, 2);
    PadDigitsValue(d.day, 2);
  }

  /** Only the canonical text of a date parses, so a stored string that
      parses is exactly what `Display` would write for it. */
  lemma FormatParse(s: string)
    requires Parse(s).Some?
    ensures Valid(Parse(s).value) && Format(Parse(s).value) == s
  {
    var d := Parse(s).value;
    DigitsValuePad(s[..4]);
    DigitsValuePad(s[5..7]);
    DigitsValuePad(s[8..]);
    assert s == s[..4] + "-" + s[5..7] + "-" + s[8..];
  }

  /** Two texts joined by '-' with first parts of equal length compare by
      their first parts, then by their second parts. */
  lemma StrLeDash(x1: string, y1: string, x2: string, y2: string)
    requires |x1| == |x2|
    ensures StrLe(x1 + "-" + y1, x2 + "-" + y2) <==>
              (x1 != x2 && StrLe(x1, x2)) || (x1 == x2 && StrLe(y1, y2))
  {
    assert x1 + "-" + y1 == x1 + ("-" + y1);
    assert x2 + "-" + y2 == x2 + ("-" + y2);
    StrLeConcat(x1, "-" + y1, x2, "-" + y2);
    assert ("-" + y1)[1..] == y1 && ("-" + y2)[1..] == y2;
  }

  lemma PadOrder(a: nat, b: nat, width: nat)
    requires a < Pow10(width) && b < Pow10(width)
    ensures PadDigits(a, width) == PadDigits(b, width) <==> a == b
    ensures StrLe(PadDigits(a, width), PadDigits(b, width)) <==> a <= b
  {
    StrLePadDigits(a, b, width);
    if PadDigits(a, width) == PadDigits(b, width) {
      PadDigitsInjective(a, b, width);
    }
  }

  /** Comparing the text forms (SQLite's TEXT order) agrees with comparing
      the dates. */
  lemma TextOrder(a: Date, b: Date)
    requires Valid(a) && Valid(b)
    ensures StrLe(Format(a), Format(b)) <==> !Before(b, a)
  {
    var ya, yb := PadDigits(a.year, 4), PadDigits(b.year, 4);
    var ma, mb := PadDigits(a.month, 2), PadDigits(b.month, 2);
    var da, db := PadDigits(a.day, 2), PadDigits(b.day, 2);
    assert Format(a) == ya + "-" + (ma + "-" + da);
    assert Format(b) == yb + "-" + (mb + "-" + db);
    StrLeDash(ya, ma + "-" + da, yb, mb + "-" + db);
    StrLeDash(ma, da, mb, db);
    PadOrder(a.year, b.year, 4);
    PadOrder(a.month, b.month, 2);
    PadOrder(a.day, b.day, 2);
  }
}
