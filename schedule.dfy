/** The recurring-debt schedule: the step from one generation date to the
    next, and the test deciding whether a recurring debt is due. */
module Schedule {
  import opened Common
  import opened Dates
  import opened RecurringModels

  /** The month after (y, m), December rolling over to January of y + 1. */
  function FollowingMonth(y: int, m: int): (ym: (int, int))
    requires 1 <= m <= 12
    ensures 1 <= ym.1 <= 12
  {
    if m == 12 then (y + 1, 1) else (y, m + 1)
  }

  /** The date in (y, m) with day `day`, clamped to the month's length;
      `Date::from_calendar_date` fails for a year past 9999, and then the
      current date is kept (`unwrap_or(current_date)`). */
  function ClampedOr(y: int, m: int, day: int, current: Date): (r: Date)
    requires 1 <= m <= 12 && 1 <= day && 0 <= y && Valid(current)
    ensures Valid(r)
  {
    var maxDay := MonthLength(y, m);
    var newDay := if day < maxDay then day else maxDay;
    if y <= 9999 then Date(y, m, newDay) else current
  }

  /** `calculate_next_occurrence`. */
  function NextOccurrence(d: Date, f: Frequency): (r: Date)
    requires Valid(d)
    ensures Valid(r)
  {
    match f
    case Daily => NextDay(d)
    case Weekly => AddDays(d, 7)
    case Monthly =>
      var (y, m) := FollowingMonth(d.year, d.month);
      ClampedOr(y, m, d.day, d)
    case Yearly => ClampedOr(d.year + 1, d.month, d.day, d)
  }

  /** Where a step has no later date to go to: `Date::MAX` for the day
      steps, December 9999 for the monthly step, the year 9999 for the
      yearly step. */
  predicate AtHorizon(d: Date, f: Frequency) {
    match f
    case Daily => d == MaxDate
    case Weekly => d == MaxDate
    case Monthly => d.year == 9999 && d.month == 12
    case Yearly => d.year == 9999
  }

  // ---------------------------------------------------------------------
  // Each step against the day numbers
  // ---------------------------------------------------------------------

  /** A daily step moves one day on, across month and year ends. */
  lemma DailyStep(d: Date)
    requires Valid(d) && d != MaxDate
    ensures Ordinal(NextOccurrence(d, Daily)) == Ordinal(d) + 1
  {
    NextDayOrdinal(d);
  }

  /** A weekly step moves seven days on, stopping at `Date::MAX`. */
  lemma WeeklyStep(d: Date)
    requires Valid(d)
    ensures Ordinal(NextOccurrence(d, Weekly)) ==
              if Ordinal(d) + 7 <= Ordinal(MaxDate) then Ordinal(d) + 7 else Ordinal(MaxDate)
  {
    AddDaysOrdinal(d, 7);
  }

  /** A monthly step lands in the following month. When that month has the
      day it keeps it, moving on by the length of the current month; when
      it does not, it lands on that month's last day. */
  lemma MonthlyStep(d: Date)
    requires Valid(d) && !AtHorizon(d, Monthly)
    ensures var r := NextOccurrence(d, Monthly);
      (r.year, r.month) == FollowingMonth(d.year, d.month)
      && (d.day <= MonthLength(r.year, r.month) ==>
            r.day == d.day && Ordinal(r) == Ordinal(d) + MonthLength(d.year, d.month))
      && (d.day > MonthLength(r.year, r.month) ==> r.day == MonthLength(r.year, r.month))
  {
    var r := NextOccurrence(d, Monthly);
    if d.month < 12 {
      DaysBeforeMonthStep(d.year, d.month);
    } else {
      DaysBeforeYearStep(d.year);
      DaysInLastMonth(d.year);
    }
  }

  /** A yearly step keeps month and day one year on, moving by the length
      of the year the step crosses; 29 February becomes 28 February. */
  lemma YearlyStep(d: Date)
    requires Valid(d) && !AtHorizon(d, Yearly)
    ensures var r := NextOccurrence(d, Yearly);
      r.year == d.year + 1 && r.month == d.month
      && (d.month == 2 && d.day == 29 ==> r.day == 28)
      && (!(d.month == 2 && d.day == 29) ==>
            r.day == d.day
            && Ordinal(r) == Ordinal(d) + (if d.month <= 2 then YearLength(d.year) else YearLength(d.year + 1)))
  {
    if !(d.month == 2 && d.day == 29) {
      assert NextOccurrence(d, Yearly) == Date(d.year + 1, d.month, d.day);
      SameDayNextYear(d);
    }
  }

  /** The same day of the next year, counted in days. */
  lemma SameDayNextYear(d: Date)
    requires Valid(d) && d.year < 9999 && !(d.month == 2 && d.day == 29)
    ensures Valid(Date(d.year + 1, d.month, d.day))
    ensures Ordinal(Date(d.year + 1, d.month, d.day))
            == Ordinal(d) + (if d.month <= 2 then YearLength(d.year) else YearLength(d.year + 1))
  {
    DaysBeforeYearStep(d.year);
  }

  /** A step never goes back: it moves strictly later, and stays put exactly
      at the horizon, where the `unwrap_or(current_date)` fallback (or the
      saturation at `Date::MAX`) is taken. */
  lemma NextOccurrenceLater(d: Date, f: Frequency)
    requires Valid(d)
    ensures AtHorizon(d, f) ==> NextOccurrence(d, f) == d
    ensures !AtHorizon(d, f) ==> Before(d, NextOccurrence(d, f))
  {
    var r := NextOccurrence(d, f);
    match f {
      case Daily =>
        NextDayOrdinal(d);
        BeforeOrdinal(d, r);
      case Weekly =>
        AddDaysOrdinal(d, 7);
        MaxDateIsLast(d);
        BeforeOrdinal(d, r);
        if d == MaxDate {
          MaxDateIsLast(r);
        }
      case Monthly =>
      case Yearly =>
    }
  }

  /** Clamping is not undone: each step starts from the current date, so a
      schedule started on 31 January runs 02-28, then 03-28. */
  lemma ClampingPersists()
    ensures NextOccurrence(Date(2026, 1, 31), Monthly) == Date(2026, 2, 28)
    ensures NextOccurrence(Date(2026, 2, 28), Monthly) == Date(2026, 3, 28)
  {
  }

  /** The four unit tests of the step. */
  lemma NextOccurrenceExamples()
    ensures NextOccurrence(Date(2026, 2, 15), Daily) == Date(2026, 2, 16)
    ensures NextOccurrence(Date(2026, 2, 15), Weekly) == Date(2026, 2, 22)
    ensures NextOccurrence(Date(2026, 1, 31), Monthly) == Date(2026, 2, 28)
    ensures NextOccurrence(Date(2024, 2, 29), Yearly) == Date(2025, 2, 28)
  {
    var d := Date(2026, 2, 15);
    assert AddDays(d, 7) == AddDays(Date(2026, 2, 16), 6) == AddDays(Date(2026, 2, 17), 5)
      == AddDays(Date(2026, 2, 18), 4) == AddDays(Date(2026, 2, 19), 3)
      == AddDays(Date(2026, 2, 20), 2) == AddDays(Date(2026, 2, 21), 1);
  }

  // ---------------------------------------------------------------------
  // Eligibility
  // ---------------------------------------------------------------------

  /** `should_generate`: inactive, past the end date or not yet due each
      answer no, in that order; otherwise yes. */
  function ShouldGenerate(r: RecurringDebt, today: Date): (b: bool)
    ensures b <==> r.isActive
                   && (r.endDate.None? || !Before(r.endDate.value, today))
                   && !Before(today, r.nextGenerationDate)
  {
    if !r.isActive then false
    else if r.endDate.Some? && Before(r.endDate.value, today) then false
    else if Before(today, r.nextGenerationDate) then false
    else true
  }

  /** The end date is inclusive: a debt ending today is still generated. */
  lemma EndDateInclusive(r: RecurringDebt, today: Date)
    requires r.isActive && r.endDate == Some(today) && !Before(today, r.nextGenerationDate)
    ensures ShouldGenerate(r, today)
  {
  }

  /** A debt whose end date falls before its next generation date is never
      generated, whatever day it is. */
  lemma EndBeforeNextNeverDue(r: RecurringDebt, today: Date)
    requires r.endDate.Some? && Before(r.endDate.value, r.nextGenerationDate)
    ensures !ShouldGenerate(r, today)
  {
  }
}
