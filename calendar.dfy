/** Dates and local date-times as whole numbers, with the calendar operations
    the metrics use: `toLocalDate`, `atStartOfDay`, `ChronoUnit.DAYS.between`,
    the ISO day of the week and the truncations to week and month starts. */
module Calendar {

  /** A `LocalDate`: whole days since 1970-01-01, which was a Thursday. */
  type Day = int

  /** A `LocalDateTime` at whole-second resolution: seconds since 1970-01-01T00:00. */
  type Instant = int

  const SecondsPerDay: int := 86400

  /** `date.atStartOfDay()` */
  function StartOfDay(d: Day): Instant
  {
    d * SecondsPerDay
  }

  /** SQL's `t BETWEEN start AND end`: both bounds included. */
  predicate Between(t: Instant, start: Instant, end: Instant)
  {
    start <= t <= end
  }

  /** `dateTime.toLocalDate()`, and SQL's `cast(ts as date)`: the day an instant falls on. */
  function DateOf(t: Instant): (d: Day)
    ensures StartOfDay(d) <= t < StartOfDay(d + 1)
  {
    t / SecondsPerDay
  }

  lemma DateOfStartOfDay(d: Day)
    ensures DateOf(StartOfDay(d)) == d
  {
  }

  /** `ChronoUnit.DAYS.between(start, end)` on two `LocalDateTime`s: the number of
      complete 24-hour periods from start to end, truncated toward zero. */
  function WholeDaysBetween(start: Instant, end: Instant): (n: int)
    ensures start <= end ==> 0 <= n && n * SecondsPerDay <= end - start < (n + 1) * SecondsPerDay
    ensures end < start ==> n <= 0 && -n * SecondsPerDay <= start - end < (1 - n) * SecondsPerDay
  {
    if start <= end then (end - start) / SecondsPerDay else -((start - end) / SecondsPerDay)
  }

  /** `getDayOfWeek().getValue()`: 1 for Monday up to 7 for Sunday. */
  function IsoDayOfWeek(d: Day): (w: int)
    ensures 1 <= w <= 7
  {
    (d + 3) % 7 + 1
  }

  /** The weekday is anchored to the calendar: day 0, 1970-01-01, is a
      Thursday, 2024-01-01 is a Monday, and each next day is the next weekday,
      Sunday wrapping round to Monday. */
  lemma IsoDayOfWeekCalendar(d: Day)
    ensures IsoDayOfWeek(0) == 4
    ensures IsoDayOfWeek(19723) == 1
    ensures IsoDayOfWeek(d + 1) == IsoDayOfWeek(d) % 7 + 1
    ensures IsoDayOfWeek(d + 7) == IsoDayOfWeek(d)
  {
  }

  /** `d.minusDays(d.getDayOfWeek().getValue() - 1)`, and SQL's
      `DATE_TRUNC('week', d)`: the Monday on or before `d`. */
  function WeekStart(d: Day): (m: Day)
    ensures m <= d < m + 7
    ensures IsoDayOfWeek(m) == 1
  {
    d - (IsoDayOfWeek(d) - 1)
  }

  /** A truncation of dates to the start of coarser periods, each at least
      seven days long: it never moves a date forward, keys are fixed points,
      and two different keys are at least a week apart. */
  ghost predicate IsCoarseTruncation(trunc: Day -> Day)
  {
    && (forall d :: trunc(d) <= d)
    && (forall d :: trunc(trunc(d)) == trunc(d))
    && (forall d, e :: trunc(d) < trunc(e) ==> trunc(d) + 7 <= trunc(e))
  }

  lemma WeekStartIsCoarse()
    ensures IsCoarseTruncation(WeekStart)
  {
    forall d
      ensures WeekStart(WeekStart(d)) == WeekStart(d)
    {
      assert IsoDayOfWeek(WeekStart(d)) == 1;
    }
    forall d, e | WeekStart(d) < WeekStart(e)
      ensures WeekStart(d) + 7 <= WeekStart(e)
    {
      var a, b := WeekStart(d), WeekStart(e);
      assert (a + 3) % 7 == 0 && (b + 3) % 7 == 0;
      assert (a + 3) == 7 * ((a + 3) / 7) && (b + 3) == 7 * ((b + 3) / 7);
    }
  }

  /** What the model relies on about `d.withDayOfMonth(1)` and SQL's
      `DATE_TRUNC('month', d)` (the Gregorian calendar itself is not modelled):
      the first of the month is at most 30 days before the date, it is its own
      month start, and two different month starts are at least 28 days apart. */
  ghost predicate IsMonthStart(monthStart: Day -> Day)
  {
    && (forall d :: monthStart(d) <= d <= monthStart(d) + 30)
    && (forall d :: monthStart(monthStart(d)) == monthStart(d))
    && (forall d, e :: monthStart(d) < monthStart(e) ==> monthStart(d) + 28 <= monthStart(e))
  }

  lemma MonthStartIsCoarse(monthStart: Day -> Day)
    requires IsMonthStart(monthStart)
    ensures IsCoarseTruncation(monthStart)
  {
  }
}
