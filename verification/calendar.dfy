/** The proleptic Gregorian calendar the codec walks its date columns over:
    dates, the one-day step, the "first day of next month" adjuster, date
    comparison and the number of days between two dates. */
module Calendar {

  datatype CivilDate = CivilDate(year: int, month: int, day: int)

  predicate IsLeapYear(y: int) {
    y % 4 == 0 && (y % 100 != 0 || y % 400 == 0)
  }

  function YearLength(y: int): int {
    if IsLeapYear(y) then 366 else 365
  }

  function DaysInMonth(y: int, m: int): int
    requires 1 <= m <= 12
  {
    if m == 2 then (if IsLeapYear(y) then 29 else 28)
    else if m == 4 || m == 6 || m == 9 || m == 11 then 30
    else 31
  }

  predicate IsValidDate(d: CivilDate) {
    1 <= d.month <= 12 && 1 <= d.day <= DaysInMonth(d.year, d.month)
  }

  /** A calendar date, as a `LocalDate` holds one. */
  type Date = d: CivilDate | IsValidDate(d) witness CivilDate(2000, 1, 1)

  /** `date.compareTo(other) < 0`: year, then month, then day. */
  predicate Before(a: Date, b: Date) {
    a.year < b.year
    || (a.year == b.year && (a.month < b.month || (a.month == b.month && a.day < b.day)))
  }

  /** `date.plusDays(1)`. */
  function Next(d: Date): (r: Date)
    ensures Before(d, r)
  {
    if d.day < DaysInMonth(d.year, d.month) then CivilDate(d.year, d.month, d.day + 1)
    else if d.month < 12 then CivilDate(d.year, d.month + 1, 1)
    else CivilDate(d.year + 1, 1, 1)
  }

  /** `date.with(TemporalAdjusters.firstDayOfNextMonth())`. */
  function FirstDayOfNextMonth(d: Date): (r: Date)
    ensures r.day == 1 && Before(d, r)
  {
    if d.month < 12 then CivilDate(d.year, d.month + 1, 1) else CivilDate(d.year + 1, 1, 1)
  }

  /** The date `k` days after `d`. */
  function PlusDays(d: Date, k: nat): Date {
    if k == 0 then d else Next(PlusDays(d, k - 1))
  }

  // ---------------------------------------------------------------------
  // Day numbers: days since 0000-01-01, the basis of ChronoUnit.DAYS.between.

  /** Days in the years before `y`: 365 per year plus one per leap year in [0, y). */
  function DaysBeforeYear(y: int): int {
    365 * y + (y + 3) / 4 - (y + 99) / 100 + (y + 399) / 400
  }

  function DaysBeforeMonth(y: int, m: int): int
    requires 1 <= m <= 12
  {
    [0, 31, 59, 90, 120, 151, 181, 212, 243, 273, 304, 334][m - 1]
    + (if m > 2 && IsLeapYear(y) then 1 else 0)
  }

  function DayNumber(d: Date): int {
    DaysBeforeYear(d.year) + DaysBeforeMonth(d.year, d.month) + d.day - 1
  }

  /** `ChronoUnit.DAYS.between(a, b)`. */
  function DaysBetween(a: Date, b: Date): int {
    DayNumber(b) - DayNumber(a)
  }

  lemma YearStep(y: int)
    ensures DaysBeforeYear(y + 1) == DaysBeforeYear(y) + YearLength(y)
  {
    LeapCountStep(y);
  }

  /** Each leap-year count in `DaysBeforeYear` grows by one exactly at its multiples. */
  lemma LeapCountStep(y: int)
    ensures (y + 4) / 4 == (y + 3) / 4 + (if y % 4 == 0 then 1 else 0)
    ensures (y + 100) / 100 == (y + 99) / 100 + (if y % 100 == 0 then 1 else 0)
    ensures (y + 400) / 400 == (y + 399) / 400 + (if y % 400 == 0 then 1 else 0)
  {
    DivStep4(y);
    DivStep100(y);
    DivStep400(y);
  }

  lemma DivStep4(y: int)
    ensures (y + 4) / 4 == (y + 3) / 4 + (if y % 4 == 0 then 1 else 0)
  {
  }

  lemma DivStep100(y: int)
    ensures (y + 100) / 100 == (y + 99) / 100 + (if y % 100 == 0 then 1 else 0)
  {
  }

  lemma DivStep400(y: int)
    ensures (y + 400) / 400 == (y + 399) / 400 + (if y % 400 == 0 then 1 else 0)
  {
  }

  lemma MonthStep(y: int, m: int)
    requires 1 <= m <= 12
    ensures m < 12 ==> DaysBeforeMonth(y, m + 1) == DaysBeforeMonth(y, m) + DaysInMonth(y, m)
    ensures m == 12 ==> DaysBeforeMonth(y, m) + DaysInMonth(y, m) == YearLength(y)
  {
  }

  /** The year count is strictly increasing: all of year `a` lies before year `b`. */
  lemma {:induction false} YearsInOrder(a: int, b: int)
    requires a < b
    ensures DaysBeforeYear(a) + YearLength(a) <= DaysBeforeYear(b)
    decreases b - a
  {
    YearStep(a);
    if a + 1 < b {
      YearsInOrder(a + 1, b);
    }
  }

  lemma MonthsInOrder(y: int, m1: int, m2: int)
    requires 1 <= m1 < m2 <= 12
    ensures DaysBeforeMonth(y, m1) + DaysInMonth(y, m1) <= DaysBeforeMonth(y, m2)
  {
  }

  lemma DayWithinYear(d: Date)
    ensures 0 <= DaysBeforeMonth(d.year, d.month) + d.day - 1 < YearLength(d.year)
  {
    MonthStep(d.year, d.month);
    if d.month < 12 {
      MonthsInOrder(d.year, d.month, 12);
      MonthStep(d.year, 12);
    }
  }

  /** `plusDays(1)` advances the day number by exactly one. */
  lemma NextIsOneDayLater(d: Date)
    ensures DayNumber(Next(d)) == DayNumber(d) + 1
  {
    if d.day == DaysInMonth(d.year, d.month) {
      MonthStep(d.year, d.month);
      if d.month == 12 {
        YearStep(d.year);
      }
    }
  }

  lemma {:induction false} PlusDaysIsLater(d: Date, k: nat)
    ensures DayNumber(PlusDays(d, k)) == DayNumber(d) + k
  {
    if k > 0 {
      PlusDaysIsLater(d, k - 1);
      NextIsOneDayLater(PlusDays(d, k - 1));
    }
  }

  lemma {:induction false} PlusDaysShift(d: Date, k: nat)
    ensures PlusDays(Next(d), k) == PlusDays(d, k + 1)
  {
    if k > 0 {
      PlusDaysShift(d, k - 1);
    }
  }

  lemma {:induction false} PlusDaysAdd(d: Date, i: nat, k: nat)
    ensures PlusDays(PlusDays(d, i), k) == PlusDays(d, i + k)
  {
    if k > 0 {
      PlusDaysAdd(d, i, k - 1);
    }
  }

  /** Date comparison agrees with day-number order, in both directions. */
  lemma BeforeIsEarlier(a: Date, b: Date)
    ensures Before(a, b) <==> DayNumber(a) < DayNumber(b)
  {
    if Before(a, b) {
      BeforeImpliesEarlier(a, b);
    } else if a != b {
      assert Before(b, a);
      BeforeImpliesEarlier(b, a);
    }
  }

  lemma BeforeImpliesEarlier(a: Date, b: Date)
    requires Before(a, b)
    ensures DayNumber(a) < DayNumber(b)
  {
    DayWithinYear(a);
    DayWithinYear(b);
    if a.year < b.year {
      YearsInOrder(a.year, b.year);
    } else if a.month < b.month {
      MonthsInOrder(a.year, a.month, b.month);
    }
  }

  /** Distinct dates have distinct day numbers. */
  lemma DayNumberInjective(a: Date, b: Date)
    requires DayNumber(a) == DayNumber(b)
    ensures a == b
  {
    BeforeIsEarlier(a, b);
    BeforeIsEarlier(b, a);
  }

  /** Within a month, stepping `k` days only raises the day of month. */
  lemma {:induction false} PlusDaysWithinMonth(d: Date, k: nat)
    requires d.day + k <= DaysInMonth(d.year, d.month)
    ensures PlusDays(d, k) == CivilDate(d.year, d.month, d.day + k)
  {
    if k > 0 {
      PlusDaysWithinMonth(d, k - 1);
    }
  }

  /** Stepping past the last day of the month lands on the first of the next month. */
  lemma PlusDaysReachesNextMonth(d: Date, k: nat)
    requires k == DaysInMonth(d.year, d.month) - d.day + 1
    ensures PlusDays(d, k) == FirstDayOfNextMonth(d)
  {
    var j: nat := k - 1;
    PlusDaysWithinMonth(d, j);
    var last := PlusDays(d, j);
    NextOfLastDay(last);
    PlusDaysStep(d, j);
    SameMonthSameNext(last, d);
  }

  lemma PlusDaysStep(d: Date, k: nat)
    ensures PlusDays(d, k + 1) == Next(PlusDays(d, k))
  {
  }

  lemma SameMonthSameNext(a: Date, b: Date)
    requires a.year == b.year && a.month == b.month
    ensures FirstDayOfNextMonth(a) == FirstDayOfNextMonth(b)
  {
  }

  lemma NextOfLastDay(d: Date)
    requires d.day == DaysInMonth(d.year, d.month)
    ensures Next(d) == FirstDayOfNextMonth(d)
  {
  }

  // ---------------------------------------------------------------------
  // The half-open date range [start, end) that every date column walks.

  /** The dates visited by the loop `date = start; date < end; date = date.plusDays(1)`. */
  function DateRange(start: Date, end: Date): seq<Date>
    decreases DayNumber(end) - DayNumber(start)
  {
    if Before(start, end) then
      BeforeIsEarlier(start, end);
      NextIsOneDayLater(start);
      [start] + DateRange(Next(start), end)
    else []
  }

  /** The range holds one date per day between its bounds, the k-th being `start + k`. */
  lemma {:induction false} DateRangeShape(start: Date, end: Date)
    ensures |DateRange(start, end)| == if Before(start, end) then DaysBetween(start, end) else 0
    ensures forall k :: 0 <= k < |DateRange(start, end)| ==> DateRange(start, end)[k] == PlusDays(start, k)
    decreases DayNumber(end) - DayNumber(start)
  {
    if Before(start, end) {
      BeforeIsEarlier(start, end);
      NextIsOneDayLater(start);
      var next := Next(start);
      DateRangeShape(next, end);
      BeforeIsEarlier(next, end);
      var r := DateRange(start, end);
      forall k | 0 < k < |r|
        ensures r[k] == PlusDays(start, k)
      {
        PlusDaysShift(start, k - 1);
      }
    }
  }

  /** A date is in the range exactly when it lies in [start, end). */
  lemma DateRangeMembers(start: Date, end: Date, d: Date)
    ensures d in DateRange(start, end) <==> !Before(d, start) && Before(d, end)
  {
    var r := DateRange(start, end);
    DateRangeShape(start, end);
    BeforeIsEarlier(d, start);
    BeforeIsEarlier(d, end);
    BeforeIsEarlier(start, end);
    if d in r {
      var k :| 0 <= k < |r| && r[k] == d;
      PlusDaysIsLater(start, k);
    }
    if !Before(d, start) && Before(d, end) {
      var k := DayNumber(d) - DayNumber(start);
      PlusDaysIsLater(start, k);
      DayNumberInjective(PlusDays(start, k), d);
      assert r[k] == d;
    }
  }

  /** The range is strictly increasing, so it has no repeated date. */
  lemma DateRangeIncreasing(start: Date, end: Date, i: int, j: int)
    requires 0 <= i < j < |DateRange(start, end)|
    ensures Before(DateRange(start, end)[i], DateRange(start, end)[j])
  {
    DateRangeShape(start, end);
    PlusDaysIsLater(start, i);
    PlusDaysIsLater(start, j);
    BeforeIsEarlier(DateRange(start, end)[i], DateRange(start, end)[j]);
  }
}
