/** `FinancialMetricsService`: LTV, CAC and ARPPU as `BigDecimal` quotients at
    scale 2 with HALF_UP rounding, each ZERO when its denominator is zero.
    Amounts are whole hundredths. */
module FinancialMetrics {
  import opened Common
  import opened Calendar
  import opened Entities
  import opened UserRepository
  import opened OrderRepository

  /** `MONTHLY_MARKETING_COSTS`: 50000, in hundredths. */
  const MonthlyMarketingCosts: Money := 5000000

  /** The shape the three ratios share: `amount.divide(count, 2, HALF_UP)`
      when `count > 0`, `BigDecimal.ZERO` otherwise. */
  function RatioOrZero(amount: Money, count: nat): Money
  {
    if count > 0 then DivideHalfUp(amount, count) else 0
  }

  /** A zero count gives 0; otherwise the result is the exact quotient rounded
      to the nearest hundredth (ties away from zero): it is exact on a
      multiple, never negative for a non-negative amount, and never above the
      amount itself. */
  lemma RatioOrZeroMeaning(amount: Money, count: nat)
    ensures count == 0 ==> RatioOrZero(amount, count) == 0
    ensures count > 0 && amount >= 0 ==>
      2 * count * RatioOrZero(amount, count) - count <= 2 * amount < 2 * count * RatioOrZero(amount, count) + count
    ensures count > 0 && amount < 0 ==>
      2 * count * RatioOrZero(amount, count) - count < 2 * amount <= 2 * count * RatioOrZero(amount, count) + count
    ensures forall k :: count > 0 && amount == k * count ==> RatioOrZero(amount, count) == k
    ensures amount >= 0 ==> 0 <= RatioOrZero(amount, count) <= amount
  {
    if count > 0 {
      forall k | amount == k * count
        ensures RatioOrZero(amount, count) == k
      {
        DivideHalfUpExact(k, count);
      }
      if amount >= 0 {
        DivideHalfUpBetween(amount, count, 0, amount);
      }
    }
  }

  // ---- getLTV ----

  /** `getLTV` given the repository's answers: the revenue of the whole order
      table (null when it is empty) over the number of users. The revenue is
      only dereferenced when there are users. */
  function LtvOf(totalRevenue: Option<Money>, totalUsers: nat): (r: Result<Money, MetricsError>)
    ensures r.Failure? <==> totalUsers > 0 && totalRevenue.None?
  {
    if totalUsers > 0 then
      match totalRevenue
      case None => Failure(NullPointer)
      case Some(revenue) => Success(RatioOrZero(revenue, totalUsers))
    else Success(0)
  }

  /** `getLTV()`: takes no period. */
  function GetLTV(store: Store): Result<Money, MetricsError>
  {
    LtvOf(TotalRevenue(store.orders), |store.users|)
  }

  /** LTV fails exactly when there are users but no orders at all; it is ZERO
      without users, and otherwise the rounded average of all order amounts
      over all users, which is not negative for a valid store. */
  lemma GetLTVMeaning(store: Store)
    ensures GetLTV(store).Failure? <==> store.users != [] && store.orders == []
    ensures GetLTV(store).Failure? ==> GetLTV(store).error == NullPointer
    ensures store.users == [] ==> GetLTV(store) == Success(0)
    ensures store.users != [] && store.orders != [] ==>
      GetLTV(store) == Success(RatioOrZero(SumAmounts(store.orders), |store.users|))
    ensures ValidStore(store) && GetLTV(store).Success? ==> GetLTV(store).value >= 0
  {
    if ValidStore(store) && store.orders != [] {
      SumAmountsCoversPeriod(store.orders, MinStart(store.orders), MaxStart(store.orders));
      assert SumAmounts(store.orders) == TotalRevenueBetween(store.orders, MinStart(store.orders), MaxStart(store.orders));
      RatioOrZeroMeaning(SumAmounts(store.orders), |store.users|);
    }
  }

  /** Bounds that hold every order date of `orders`. */
  function MinStart(orders: seq<Order>): (t: Instant)
    ensures forall o :: o in orders ==> t <= o.orderDate
  {
    if orders == [] then 0
    else
      var rest := MinStart(orders[1..]);
      assert forall o :: o in orders ==> o == orders[0] || o in orders[1..];
      if orders[0].orderDate < rest then orders[0].orderDate else rest
  }

  function MaxStart(orders: seq<Order>): (t: Instant)
    ensures forall o :: o in orders ==> o.orderDate <= t
  {
    if orders == [] then 0
    else
      var rest := MaxStart(orders[1..]);
      assert forall o :: o in orders ==> o == orders[0] || o in orders[1..];
      if orders[0].orderDate > rest then orders[0].orderDate else rest
  }

  /** 1000000 of revenue over 100 users is 10000.00. */
  lemma LtvExample()
    ensures LtvOf(Some(100000000), 100) == Success(1000000)
  {
    DivideHalfUpExact(1000000, 100);
  }

  // ---- calculatePeriodCosts and getCAC ----

  /** `calculatePeriodCosts`: the monthly budget prorated over the whole
      24-hour days between the two timestamps, per 30-day month. */
  function PeriodCosts(start: Instant, end: Instant): Money
  {
    DivideHalfUp(MonthlyMarketingCosts * WholeDaysBetween(start, end), 30)
  }

  /** The cost is not negative when `end` is not before `start`, and negative
      once `end` lies a whole day or more before it: nothing clamps the span.
      Every whole day adds 50000 / 30 = 1666.67 or 1666.66 after rounding. */
  lemma PeriodCostsSign(start: Instant, end: Instant)
    ensures start <= end ==> PeriodCosts(start, end) >= 0
    ensures end + SecondsPerDay <= start ==> PeriodCosts(start, end) < 0
  {
    var days := WholeDaysBetween(start, end);
    if start <= end {
      DivideHalfUpBetween(MonthlyMarketingCosts * days, 30, 0, MonthlyMarketingCosts * days);
    } else if end + SecondsPerDay <= start {
      assert days <= -1;
      DivideHalfUpBetween(MonthlyMarketingCosts * days, 30, MonthlyMarketingCosts * days, -1);
    }
  }

  /** 1 January 00:00 to 31 January 23:59 is 30 whole days, so the period
      costs the full 50000.00. */
  lemma PeriodCostsJanuary()
    ensures WholeDaysBetween(StartOfDay(19723), StartOfDay(19753) + 23 * 3600 + 59 * 60) == 30
    ensures PeriodCosts(StartOfDay(19723), StartOfDay(19753) + 23 * 3600 + 59 * 60) == 5000000
  {
    DivideHalfUpExact(5000000, 30);
  }

  /** `getCAC` given the number of users registered in the period: the period
      costs over that number, rounded a second time. */
  function CacOf(newUsersInPeriod: nat, start: Instant, end: Instant): Money
  {
    RatioOrZero(PeriodCosts(start, end), newUsersInPeriod)
  }

  /** `getCAC(start, end)` */
  function GetCAC(store: Store, start: Instant, end: Instant): Money
  {
    CacOf(CountByRegistrationDateBetween(store.users, start, end), start, end)
  }

  /** CAC is ZERO when nobody registered in the period, and so for every
      reversed period, whose BETWEEN matches no registration; it is not
      negative for an ordered period. The negative period costs of a reversed
      period (`PeriodCostsSign`) therefore never reach the result. */
  lemma GetCACMeaning(store: Store, start: Instant, end: Instant)
    ensures (forall u :: u in store.users ==> !RegisteredBetween(u, start, end)) ==> GetCAC(store, start, end) == 0
    ensures end < start ==> GetCAC(store, start, end) == 0
    ensures start <= end ==> GetCAC(store, start, end) >= 0
  {
    var n := CountByRegistrationDateBetween(store.users, start, end);
    PeriodCostsSign(start, end);
    RatioOrZeroMeaning(PeriodCosts(start, end), n);
  }

  /** A 30-day period and 50 new users give 1000.00; a 15-day period and 10
      new users give 2500.00. */
  lemma CacExamples()
    ensures CacOf(50, StartOfDay(19723), StartOfDay(19753) + 23 * 3600 + 59 * 60) == 100000
    ensures CacOf(10, StartOfDay(19723), StartOfDay(19738)) == 250000
  {
    PeriodCostsJanuary();
    DivideHalfUpExact(100000, 50);
    assert WholeDaysBetween(StartOfDay(19723), StartOfDay(19738)) == 15;
    DivideHalfUpExact(2500000, 30);
    DivideHalfUpExact(250000, 10);
  }

  /** A reversed period of one day with one new user gives -1666.67. */
  lemma CacReversedExample()
    ensures CacOf(1, StartOfDay(19724), StartOfDay(19723)) == -166667
  {
    assert WholeDaysBetween(StartOfDay(19724), StartOfDay(19723)) == -1;
    DivideHalfUpExact(-166667, 1);
  }

  // ---- getARPPU ----

  /** `getARPPU` given the period's revenue and number of distinct payers. */
  function ArppuOf(periodRevenue: Money, payingUsers: nat): Money
  {
    RatioOrZero(periodRevenue, payingUsers)
  }

  /** `getARPPU(start, end)` */
  function GetARPPU(store: Store, start: Instant, end: Instant): Money
  {
    ArppuOf(TotalRevenueBetween(store.orders, start, end), CountDistinctPayingUsersBetween(store.orders, start, end))
  }

  /** ARPPU is ZERO when no order falls in the period; for a valid store it is
      not negative and never above the period's revenue. */
  lemma GetARPPUMeaning(store: Store, start: Instant, end: Instant)
    ensures CountByOrderDateBetween(store.orders, start, end) == 0 ==> GetARPPU(store, start, end) == 0
    ensures ValidStore(store) ==> 0 <= GetARPPU(store, start, end) <= TotalRevenueBetween(store.orders, start, end)
  {
    PayingUsersAtMostOrders(store.orders, start, end);
    var revenue := TotalRevenueBetween(store.orders, start, end);
    RatioOrZeroMeaning(revenue, CountDistinctPayingUsersBetween(store.orders, start, end));
  }

  /** 500000 of revenue over 100 paying users is 5000.00. */
  lemma ArppuExample()
    ensures ArppuOf(50000000, 100) == 500000
  {
    DivideHalfUpExact(500000, 100);
  }
}
