/**
 * Calendar arithmetic of Python's `datetime`, at whole-second resolution: proleptic Gregorian
 * dates numbered by `toordinal`, instants as seconds, `timedelta.days` as floor division and
 * `datetime.replace(year=, month=)` as used to compute a fixed deposit's end date.
 */
module Dates {
  import opened Wrappers

  const SecondsPerDay: int := 86400

  /** A point in time on the (naive, local) clock: seconds since the start of day 0 of the ordinal count. */
  type Instant = int

  /** A civil date and time: the clock reading `datetime.now()` returns, without microseconds. */
  datatype DateTime = DateTime(year: int, month: int, day: int, second: int)

  predicate IsLeap(y: int) { y % 4 == 0 && (y % 100 != 0 || y % 400 == 0) }

  function DaysInMonth(y: int, m: int): (n: int)
    requires 1 <= m <= 12
    ensures 28 <= n <= 31
  {
    if m == 2 then (if IsLeap(y) then 29 else 28)
    else if m == 4 || m == 6 || m == 9 || m == 11 then 30
    else 31
  }

  /** The range `datetime` accepts: years 1..9999 and a day that exists in its month. */
  predicate ValidDate(y: int, m: int, d: int) {
    1 <= y <= 9999 && 1 <= m <= 12 && 1 <= d <= DaysInMonth(y, m)
  }

  predicate ValidDateTime(t: DateTime) {
    ValidDate(t.year, t.month, t.day) && 0 <= t.second < SecondsPerDay
  }

  function DaysBeforeYear(y: int): int {
    var p := y - 1;
    p * 365 + p / 4 - p / 100 + p / 400
  }

  function DaysBeforeMonth(y: int, m: int): int
    requires 1 <= m <= 12
  {
    var table := [0, 31, 59, 90, 120, 151, 181, 212, 243, 273, 304, 334];
    table[m - 1] + (if m > 2 && IsLeap(y) then 1 else 0)
  }

  /** Python's `date.toordinal()`: 0001-01-01 is day 1. */
  function Ordinal(y: int, m: int, d: int): int
    requires 1 <= m <= 12
  {
    DaysBeforeYear(y) + DaysBeforeMonth(y, m) + d
  }

  function ToInstant(t: DateTime): Instant
    requires 1 <= t.month <= 12
  {
    Ordinal(t.year, t.month, t.day) * SecondsPerDay + t.second
  }

  /** `(later - earlier).days`: whole days between two instants, floored as `timedelta` normalises. */
  function WholeDays(earlier: Instant, later: Instant): int {
    (later - earlier) / SecondsPerDay
  }

  /** `t + timedelta(days=n)`. */
  function AddDays(t: Instant, n: int): Instant {
    t + n * SecondsPerDay
  }

  datatype DateError = DayOutOfRange | YearOutOfRange

  /** Months counted from the start of year 0: consecutive calendar months have consecutive indices. */
  function MonthIndex(y: int, m: int): int { 12 * y + m }

  /**
   * `start.replace(year=end_year, month=end_month)` where the target month is `months` calendar
   * months after the start month: the year carries, day and time of day are kept, and a target
   * that is not a valid date raises instead of being clamped.
   */
  function AddMonths(start: DateTime, months: int): (r: Result<DateTime, DateError>)
    requires ValidDateTime(start)
    ensures r.Ok? ==> ValidDateTime(r.value)
    ensures r.Ok? ==> MonthIndex(r.value.year, r.value.month) == MonthIndex(start.year, start.month) + months
    ensures r.Ok? ==> r.value.day == start.day && r.value.second == start.second
    ensures r.Err? ==> forall y, m :: MonthIndex(y, m) == MonthIndex(start.year, start.month) + months
                                      ==> !ValidDate(y, m, start.day)
  {
    var endMonth0 := start.month + months;
    var endYear := start.year + (endMonth0 - 1) / 12;
    var endMonth := (endMonth0 - 1) % 12 + 1;
    assert MonthIndex(endYear, endMonth) == MonthIndex(start.year, start.month) + months;
    if !(1 <= endYear <= 9999) || start.day > DaysInMonth(endYear, endMonth) then
      assert forall y, m :: MonthIndex(y, m) == MonthIndex(endYear, endMonth) && 1 <= m <= 12
                            ==> y == endYear && m == endMonth;
      if !(1 <= endYear <= 9999) then Err(YearOutOfRange) else Err(DayOutOfRange)
    else
      Ok(DateTime(endYear, endMonth, start.day, start.second))
  }

  /** Six months after 31 January 2024 is 31 July 2024. */
  lemma SixMonthsAfterJanuaryThirtyFirst()
    ensures AddMonths(DateTime(2024, 1, 31, 0), 6) == Ok(DateTime(2024, 7, 31, 0))
  {
  }

  /** One month after 31 January has no 31st: the end-date computation fails rather than clamping. */
  lemma OneMonthAfterJanuaryThirtyFirstFails()
    ensures AddMonths(DateTime(2024, 1, 31, 0), 1) == Err(DayOutOfRange)
  {
  }

  /** Twelve months after November 2024 carries into November 2025. */
  lemma YearCarry()
    ensures AddMonths(DateTime(2024, 11, 15, 3600), 12) == Ok(DateTime(2025, 11, 15, 3600))
  {
  }

  /**
   * Moving an instant forward by `n` whole days lowers the whole-day distance to any later instant
   * by exactly `n`.
   */
  lemma WholeDaysAfterAdvance(from: Instant, n: int, to: Instant)
    ensures WholeDays(AddDays(from, n), to) == WholeDays(from, to) - n
  {
    var x := to - from;
    var q := x / SecondsPerDay;
    var rem := x % SecondsPerDay;
    assert x == q * SecondsPerDay + rem && 0 <= rem < SecondsPerDay;
    assert to - AddDays(from, n) == (q - n) * SecondsPerDay + rem;
    DivUnique(to - AddDays(from, n), q - n, rem);
  }

  lemma DivUnique(x: int, q: int, rem: int)
    requires 0 <= rem < SecondsPerDay && x == q * SecondsPerDay + rem
    ensures x / SecondsPerDay == q
  {
  }

  /** Whole days never overstate the elapsed time: advancing by them does not pass the later instant. */
  lemma AdvanceByWholeDaysStaysBefore(from: Instant, n: int, to: Instant)
    requires n <= WholeDays(from, to)
    ensures AddDays(from, n) <= to
  {
    var x := to - from;
    assert x == (x / SecondsPerDay) * SecondsPerDay + x % SecondsPerDay;
  }
}
