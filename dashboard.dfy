/** `DashboardController.calculatePeriod`: a period keyword becomes the
    half-open range from the start of the first day to the start of the day
    after today. "Today" is a parameter instead of the system clock. */
module Dashboard {
  import opened Common
  import opened Calendar
  import opened MetricsFacade

  /** `PeriodInfo(start, end)` */
  datatype PeriodInfo = PeriodInfo(start: Instant, end: Instant)

  /** The `@RequestParam` default of both handlers. */
  const DefaultPeriod: string := "last30days"

  /** The `switch` on `period.toLowerCase()`: how many days to look back. */
  function LookbackDays(period: string): nat
  {
    KeywordDays(ToLower(period))
  }

  /** The arms of the `switch`, on the lower-cased keyword. */
  function KeywordDays(keyword: string): nat
  {
    match keyword
    case "last7days" => 7
    case "last90days" => 90
    case "last365days" => 365
    case _ => 30
  }

  /** `calculatePeriod(period)` with `now.toLocalDate()` given as `today`. */
  function CalculatePeriod(period: string, today: Day): PeriodInfo
  {
    PeriodInfo(StartOfDay(today - LookbackDays(period)), StartOfDay(today + 1))
  }

  /** Both bounds fall at midnight; the range covers the whole of today and
      the `N` days before it, so it is `N + 1` days long, and the calendar
      span the facade measures is also `N + 1` days. */
  lemma CalculatePeriodMeaning(period: string, today: Day)
    ensures var p := CalculatePeriod(period, today);
      && p.start == StartOfDay(DateOf(p.start)) && p.end == StartOfDay(DateOf(p.end))
      && p.start <= StartOfDay(today) < p.end
      && p.end - p.start == (LookbackDays(period) + 1) * SecondsPerDay
      && SpanDays(p.start, p.end) == LookbackDays(period) + 1
      && DateOf(p.end - 1) == today
  {
    var p := CalculatePeriod(period, today);
    var n := LookbackDays(period);
    DateOfStartOfDay(today - n);
    DateOfStartOfDay(today + 1);
    assert p.end - 1 == today * SecondsPerDay + (SecondsPerDay - 1);
  }

  /** A string of characters that lower-case to themselves is its own lower case. */
  lemma ToLowerFixed(s: string)
    requires forall i :: 0 <= i < |s| ==> LowerChar(s[i]) == s[i]
    ensures ToLower(s) == s
  {
    assert forall i :: 0 <= i < |s| ==> ToLower(s)[i] == s[i];
  }

  /** The arms of the `switch`: each keyword its own length, anything else 30. */
  lemma KeywordDaysMeaning(keyword: string)
    ensures KeywordDays(keyword) in {7, 30, 90, 365}
    ensures KeywordDays(keyword) == 7 <==> keyword == "last7days"
    ensures KeywordDays(keyword) == 90 <==> keyword == "last90days"
    ensures KeywordDays(keyword) == 365 <==> keyword == "last365days"
  {
  }

  /** The keywords ignore case; every other string looks back 30 days. */
  lemma LookbackDaysMeaning(period: string)
    ensures LookbackDays(period) in {7, 30, 90, 365}
    ensures LookbackDays(period) == 7 <==> EqualsIgnoreCase("last7days", period)
    ensures LookbackDays(period) == 90 <==> EqualsIgnoreCase("last90days", period)
    ensures LookbackDays(period) == 365 <==> EqualsIgnoreCase("last365days", period)
    ensures LookbackDays(period) == LookbackDays(ToLower(period))
  {
    KeywordDaysMeaning(ToLower(period));
    ToLowerFixed("last7days");
    EqualsIgnoreCaseLowerKeyword("last7days", period);
    ToLowerFixed("last90days");
    EqualsIgnoreCaseLowerKeyword("last90days", period);
    ToLowerFixed("last365days");
    EqualsIgnoreCaseLowerKeyword("last365days", period);
    assert ToLower(ToLower(period)) == ToLower(period);
  }

  /** A keyword already in lower case picks its own arm of the `switch`. */
  lemma LookbackOfKeyword(period: string)
    requires forall i :: 0 <= i < |period| ==> LowerChar(period[i]) == period[i]
    ensures LookbackDays(period) == KeywordDays(period)
  {
    ToLowerFixed(period);
  }

  /** The granularity the facade picks for a period depends only on how far
      it looks back. */
  lemma PeriodGranularity(period: string, today: Day)
    ensures var p := CalculatePeriod(period, today);
      Granularity(SpanDays(p.start, p.end)) == Granularity(LookbackDays(period) + 1)
  {
    CalculatePeriodMeaning(period, today);
  }

  /** The four periods give spans of 8, 31, 91 and 366 calendar days, hence
      day, week, week and month granularity. */
  lemma KeywordGranularities()
    ensures Granularity(LookbackDays("last7days") + 1) == "day"
    ensures Granularity(LookbackDays(DefaultPeriod) + 1) == "week"
    ensures Granularity(LookbackDays("last90days") + 1) == "week"
    ensures Granularity(LookbackDays("last365days") + 1) == "month"
  {
    LookbackOfKeyword("last7days");
    LookbackOfKeyword(DefaultPeriod);
    LookbackOfKeyword("last90days");
    LookbackOfKeyword("last365days");
  }
}
