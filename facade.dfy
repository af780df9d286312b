/** `MetricsFacadeService`: the dashboard counters, and the complete metrics
    response that picks one aggregation granularity from the length of the
    period and hands it to both the audience metrics and the retention trend. */
module MetricsFacade {
  import opened Common
  import opened Calendar
  import opened Entities
  import opened UserRepository
  import opened OrderRepository
  import opened AudienceMetrics
  import opened RetentionMetrics
  import opened FinancialMetrics
  import opened ProductMetrics

  // ---- getDashboardStats ----

  /** `DashboardStats` */
  datatype DashboardStats = DashboardStats(userCount: nat, courseCount: nat, orderCount: nat, totalRevenue: Money)

  /** `getDashboardStats(start, end)` */
  function GetDashboardStats(store: Store, start: Instant, end: Instant): DashboardStats
  {
    DashboardStats(
      CountByLastActivityDateBetween(store.users, start, end),
      |store.courses|,
      CountByOrderDateBetween(store.orders, start, end),
      TotalRevenueBetween(store.orders, start, end))
  }

  /** The user counter is zero exactly when nobody was active in the period;
      the course counter does not depend on the period; the order counter and
      the revenue are the totals of the product-performance rows of the same
      period, and the revenue of a valid store is not negative. */
  lemma GetDashboardStatsMeaning(store: Store, start: Instant, end: Instant, start': Instant, end': Instant)
    ensures var s := GetDashboardStats(store, start, end);
      && s.userCount <= |store.users|
      && (s.userCount == 0 <==> forall u :: u in store.users ==> !ActiveBetween(u, start, end))
      && s.courseCount == GetDashboardStats(store, start', end').courseCount
      && (s.orderCount == 0 <==> forall o :: o in store.orders ==> !OrderedBetween(o, start, end))
    ensures ValidStore(store) ==>
      var s := GetDashboardStats(store, start, end);
      var p := ProductPerformance(store.courses, store.orders, start, end);
      && s.orderCount == TotalSales(p)
      && s.totalRevenue == TotalRowRevenue(p)
      && s.totalRevenue >= 0
  {
    if ValidStore(store) {
      ProductPerformanceAddsUp(store, start, end);
    }
  }

  // ---- The granularity of getCompleteMetrics ----

  /** `ChronoUnit.DAYS.between(start.toLocalDate(), end.toLocalDate())`. */
  function SpanDays(start: Instant, end: Instant): int
  {
    DateOf(end) - DateOf(start)
  }

  /** The span counts calendar dates: the time of day at either end is ignored. */
  lemma SpanDaysIgnoresTimeOfDay(a: Day, b: Day, t: int, u: int)
    requires 0 <= t < SecondsPerDay && 0 <= u < SecondsPerDay
    ensures SpanDays(StartOfDay(a) + t, StartOfDay(b) + u) == b - a
  {
    assert DateOf(StartOfDay(a) + t) == a by {
      assert StartOfDay(a) + t == a * SecondsPerDay + t;
    }
    assert DateOf(StartOfDay(b) + u) == b by {
      assert StartOfDay(b) + u == b * SecondsPerDay + u;
    }
  }

  /** One minute before midnight to one minute after it is one day of span,
      though not one whole 24-hour day. */
  lemma SpanDaysAcrossMidnight()
    ensures SpanDays(StartOfDay(19724) - 60, StartOfDay(19724) + 60) == 1
    ensures WholeDaysBetween(StartOfDay(19724) - 60, StartOfDay(19724) + 60) == 0
  {
    SpanDaysIgnoresTimeOfDay(19723, 19724, SecondsPerDay - 60, 60);
  }

  /** `days > 180 ? "month" : (days >= 30 ? "week" : "day")` */
  function Granularity(days: int): string
  {
    if days > 180 then "month" else if days >= 30 then "week" else "day"
  }

  /** Month beyond 180 days, week from 30 to 180, day below 30 (a reversed
      period included). The retention trend groups "day" and "week" by week
      and "month" by month, and the audience metrics bucket by the same word. */
  lemma GranularityMeaning(days: int, monthStart: Day -> Day)
    ensures Granularity(days) == "month" <==> days > 180
    ensures Granularity(days) == "week" <==> 30 <= days <= 180
    ensures Granularity(days) == "day" <==> days < 30
    ensures ToLower(Granularity(days)) == Granularity(days)
    ensures TrendBucket(Granularity(days), monthStart) == if days > 180 then monthStart else WeekStart
  {
    assert ToLower("day") == "day" && ToLower("week") == "week" && ToLower("month") == "month";
    assert ToLower("week") != ToLower("month") && ToLower("day") != ToLower("month");
  }

  lemma GranularityExamples()
    ensures Granularity(10) == "day" && Granularity(29) == "day"
    ensures Granularity(30) == "week" && Granularity(180) == "week"
    ensures Granularity(181) == "month"
  {
  }

  // ---- getCompleteMetrics ----

  /** `CompleteMetricsResponse`; `audienceMetrics` holds the `"DAU"`, `"WAU"`
      and `"MAU"` entries. */
  datatype CompleteMetrics = CompleteMetrics(
    dashboardStats: DashboardStats,
    audienceMetrics: AudienceMetrics,
    retentionRate: real,
    ltv: Money,
    cac: Money,
    arppu: Money,
    productPerformance: seq<ProductPerformanceDto>,
    retentionTrend: map<Day, real>)

  /** What `getCompleteMetrics` returns: the builder's arguments are evaluated
      in order, so the first of LTV, product performance and retention trend
      to throw ends the call. */
  ghost function CompleteMetricsOf(store: Store, start: Instant, end: Instant, monthStart: Day -> Day, zone: int -> Day)
    : Result<CompleteMetrics, MetricsError>
  {
    var agg := Granularity(SpanDays(start, end));
    match GetLTV(store)
    case Failure(e) => Failure(e)
    case Success(ltv) =>
      match GetProductPerformance(ProductPerformanceRows(store.courses, store.orders, start, end))
      case Failure(e) => Failure(e)
      case Success(products) =>
        match RetentionTrend(store.users, start, end, agg, monthStart, zone)
        case Failure(e) => Failure(e)
        case Success(trend) =>
          Success(CompleteMetrics(
            GetDashboardStats(store, start, end),
            AudienceOf(store.users, start, end, agg, monthStart),
            RetentionRate(store, end),
            ltv,
            GetCAC(store, start, end),
            GetARPPU(store, start, end),
            products,
            trend))
  }

  /** `getCompleteMetrics(start, end)` */
  method GetCompleteMetrics(store: Store, start: Instant, end: Instant, monthStart: Day -> Day, zone: int -> Day)
    returns (r: Result<CompleteMetrics, MetricsError>)
    ensures r == CompleteMetricsOf(store, start, end, monthStart, zone)
  {
    var days := SpanDays(start, end);
    var agg := Granularity(days);
    var dashboardStats := GetDashboardStats(store, start, end);
    var audience := GetAudienceMetrics(store.users, start, end, agg, monthStart);
    var retentionRate := GetRetentionRate(store, start, end);
    var ltv := GetLTV(store);
    if ltv.Failure? {
      return Failure(ltv.error);
    }
    var cac := GetCAC(store, start, end);
    var arppu := GetARPPU(store, start, end);
    var products := GetProductPerformance(ProductPerformanceRows(store.courses, store.orders, start, end));
    if products.Failure? {
      return Failure(products.error);
    }
    var trend := GetRetentionTrend(store.users, start, end, agg, monthStart, zone);
    if trend.Failure? {
      return Failure(trend.error);
    }
    r := Success(CompleteMetrics(dashboardStats, audience, retentionRate, ltv.value, cac, arppu, products.value, trend.value));
  }

  /** The response fails only through LTV, when there are users but no orders
      at all: the query's own product rows and trend rows always decode. */
  lemma CompleteMetricsFailure(store: Store, start: Instant, end: Instant, monthStart: Day -> Day, zone: int -> Day)
    ensures CompleteMetricsOf(store, start, end, monthStart, zone).Failure? <==> store.users != [] && store.orders == []
    ensures CompleteMetricsOf(store, start, end, monthStart, zone).Failure? ==>
      CompleteMetricsOf(store, start, end, monthStart, zone).error == NullPointer
  {
    var agg := Granularity(SpanDays(start, end));
    ProductPerformanceOfQuery(store.courses, store.orders, start, end);
    RetentionTrendMeaning(store.users, start, end, agg, monthStart, zone);
    GetLTVMeaning(store);
  }

  /** From 30 days of span on the audience is bucketed by week or month,
      so WAU equals DAU. */
  lemma CompleteMetricsAudience(store: Store, start: Instant, end: Instant, monthStart: Day -> Day, zone: int -> Day)
    requires UniqueUserIds(store.users) && IsMonthStart(monthStart)
    ensures CompleteMetricsOf(store, start, end, monthStart, zone).Success? && SpanDays(start, end) >= 30 ==>
      var m := CompleteMetricsOf(store, start, end, monthStart, zone).value;
      m.audienceMetrics.wau == m.audienceMetrics.dau
  {
    var days := SpanDays(start, end);
    var agg := Granularity(days);
    var r := CompleteMetricsOf(store, start, end, monthStart, zone);
    if r.Success? && days >= 30 {
      assert r.value.audienceMetrics == AudienceOf(store.users, start, end, agg, monthStart);
      assert ToLower(agg) == "week" || ToLower(agg) == "month" by {
        GranularityMeaning(days, monthStart);
      }
      AudienceOfMeaning(store.users, start, end, agg, monthStart);
    }
  }

  /** The trend receives the same word: it is keyed by week starts up to 180
      days of span (below 30 too, where the audience is per day) and by month
      starts beyond. */
  lemma CompleteMetricsTrend(store: Store, start: Instant, end: Instant, monthStart: Day -> Day, zone: int -> Day)
    ensures CompleteMetricsOf(store, start, end, monthStart, zone).Success? ==>
      var m := CompleteMetricsOf(store, start, end, monthStart, zone).value;
      forall d :: (d in m.retentionTrend <==>
        d in CohortKeys(store.users, start, end, if SpanDays(start, end) > 180 then monthStart else WeekStart))
  {
    var days := SpanDays(start, end);
    var agg := Granularity(days);
    var r := CompleteMetricsOf(store, start, end, monthStart, zone);
    if r.Success? {
      var trend := RetentionTrend(store.users, start, end, agg, monthStart, zone);
      assert trend.Success? && r.value.retentionTrend == trend.value;
      assert TrendBucket(agg, monthStart) == if days > 180 then monthStart else WeekStart by {
        GranularityMeaning(days, monthStart);
      }
      RetentionTrendMeaning(store.users, start, end, agg, monthStart, zone);
    }
  }

  /** The figures of a successful response: the retention rate is a
      percentage, LTV is not negative for a valid store, and the products are
      the period's five best sellers, best first. */
  lemma CompleteMetricsFigures(store: Store, start: Instant, end: Instant, monthStart: Day -> Day, zone: int -> Day)
    requires ValidStore(store)
    ensures CompleteMetricsOf(store, start, end, monthStart, zone).Success? ==>
      var m := CompleteMetricsOf(store, start, end, monthStart, zone).value;
      var p := ProductPerformance(store.courses, store.orders, start, end);
      && 0.0 <= m.retentionRate <= 100.0
      && m.ltv >= 0
      && |m.productPerformance| == Min(TopCount, |p|)
      && (forall i :: 0 <= i < |m.productPerformance| ==> m.productPerformance[i] == DtoOf(p[i]))
  {
    GetLTVMeaning(store);
    ProductPerformanceOfQuery(store.courses, store.orders, start, end);
    RetentionRateMeaning(store, end);
  }
}
