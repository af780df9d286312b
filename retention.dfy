/** `RetentionMetricsService`: the lifetime repeat-purchase rate and the
    cohort retention trend decoded from untyped result rows. */
module RetentionMetrics {
  import opened Common
  import opened Calendar
  import opened Entities
  import opened UserRepository
  import opened OrderRepository

  // ---- getRetentionRate ----

  /** A buyer who came back: more than one order in the whole order table
      (`findByUser` is not bounded by the period). */
  predicate IsRepeatBuyer(orders: seq<Order>, u: User)
  {
    |FindByUser(orders, u.id)| > 1
  }

  /** How many of `buyers` are repeat buyers. */
  function RepeatBuyers(orders: seq<Order>, buyers: seq<User>): (n: nat)
    ensures n <= |buyers|
  {
    if buyers == [] then 0
    else RepeatBuyers(orders, buyers[..|buyers| - 1]) + (if IsRepeatBuyer(orders, buyers[|buyers| - 1]) then 1 else 0)
  }

  /** The rate `getRetentionRate` returns, as an exact percentage: the share of
      users with an order before `end` who have more than one order. */
  function RetentionRate(store: Store, end: Instant): real
  {
    var buyers := UsersWithAnyOrdersBefore(store.users, store.orders, end);
    if |buyers| == 0 then 0.0
    else (RepeatBuyers(store.orders, buyers) as real) / (|buyers| as real) * 100.0
  }

  /** `getRetentionRate(start, end)`: count the repeat buyers among the users
      with an order before `end`, then divide. `start` takes no part. */
  method GetRetentionRate(store: Store, start: Instant, end: Instant) returns (rate: real)
    ensures rate == RetentionRate(store, end)
  {
    var allUsersEver := UsersWithAnyOrdersBefore(store.users, store.orders, end);
    var totalUsers := |allUsersEver|;
    if totalUsers == 0 {
      return 0.0;
    }
    var retained := 0;
    for i := 0 to |allUsersEver|
      invariant retained == RepeatBuyers(store.orders, allUsersEver[..i])
    {
      var user := allUsersEver[i];
      var orders := FindByUser(store.orders, user.id);
      assert allUsersEver[..i + 1][..i] == allUsersEver[..i];
      if |orders| > 1 {
        retained := retained + 1;
      }
    }
    assert allUsersEver[..|allUsersEver|] == allUsersEver;
    rate := (retained as real) / (totalUsers as real) * 100.0;
  }

  /** The count reaches the number of buyers exactly when every buyer is a
      repeat buyer. */
  lemma {:induction false} RepeatBuyersAll(orders: seq<Order>, buyers: seq<User>)
    ensures RepeatBuyers(orders, buyers) == |buyers| <==> forall u :: u in buyers ==> IsRepeatBuyer(orders, u)
  {
    if buyers != [] {
      var init, last := buyers[..|buyers| - 1], buyers[|buyers| - 1];
      RepeatBuyersAll(orders, init);
      assert buyers == init + [last];
      assert forall u :: u in buyers <==> u in init || u == last;
    }
  }

  /** The count is zero exactly when no buyer is a repeat buyer. */
  lemma {:induction false} RepeatBuyersNone(orders: seq<Order>, buyers: seq<User>)
    ensures RepeatBuyers(orders, buyers) == 0 <==> forall u :: u in buyers ==> !IsRepeatBuyer(orders, u)
  {
    if buyers != [] {
      var init, last := buyers[..|buyers| - 1], buyers[|buyers| - 1];
      RepeatBuyersNone(orders, init);
      assert buyers == init + [last];
      assert forall u :: u in buyers <==> u in init || u == last;
    }
  }

  /** `n / t * 100` for `0 <= n <= t` is a percentage, 100 exactly when
      `n == t` and 0 exactly when `n == 0`. */
  lemma Percentage(n: nat, t: nat)
    requires 0 < n + t && n <= t
    ensures 0.0 <= (n as real) / (t as real) * 100.0 <= 100.0
    ensures (n as real) / (t as real) * 100.0 == 100.0 <==> n == t
    ensures (n as real) / (t as real) * 100.0 == 0.0 <==> n == 0
  {
    var q := (n as real) / (t as real);
    assert q * (t as real) == n as real;
    assert q <= 1.0 by {
      assert (1.0 - q) * (t as real) == (t - n) as real;
    }
    assert q == 1.0 ==> n == t;
  }

  /** The rate is a percentage; it is 0 when nobody ordered before `end`;
      otherwise it is 100 exactly when every such buyer came back and 0 exactly
      when none did. */
  lemma RetentionRateMeaning(store: Store, end: Instant)
    ensures 0.0 <= RetentionRate(store, end) <= 100.0
    ensures (forall u :: u in store.users ==> !HasOrderBefore(store.orders, u.id, end))
      ==> RetentionRate(store, end) == 0.0
    ensures (exists u :: u in store.users && HasOrderBefore(store.orders, u.id, end)) ==>
      (RetentionRate(store, end) == 100.0 <==>
         forall u :: u in store.users && HasOrderBefore(store.orders, u.id, end) ==> IsRepeatBuyer(store.orders, u))
    ensures (exists u :: u in store.users && HasOrderBefore(store.orders, u.id, end)) ==>
      (RetentionRate(store, end) == 0.0 <==>
         forall u :: u in store.users && HasOrderBefore(store.orders, u.id, end) ==> !IsRepeatBuyer(store.orders, u))
  {
    var buyers := UsersWithAnyOrdersBefore(store.users, store.orders, end);
    RepeatBuyersAll(store.orders, buyers);
    RepeatBuyersNone(store.orders, buyers);
    if |buyers| > 0 {
      Percentage(RepeatBuyers(store.orders, buyers), |buyers|);
    } else {
      assert forall u :: u in store.users && HasOrderBefore(store.orders, u.id, end) ==> u in buyers;
    }
  }

  /** A second order placed after `end` still makes a buyer a repeat buyer:
      one user, orders on day 0 and day 30, `end` on day 10 give 100 %. */
  lemma LaterOrdersCount()
    ensures RetentionRate(
      Store([User(1, 0, None)], [], [Order(1, 1, 7, 0, 100), Order(2, 1, 7, StartOfDay(30), 100)]),
      StartOfDay(10)) == 100.0
  {
    var store := Store([User(1, 0, None)], [], [Order(1, 1, 7, 0, 100), Order(2, 1, 7, StartOfDay(30), 100)]);
    var buyers := UsersWithAnyOrdersBefore(store.users, store.orders, StartOfDay(10));
    assert HasOrderBefore(store.orders, 1, StartOfDay(10)) by {
      assert store.orders[0] in store.orders;
    }
    assert User(1, 0, None) in buyers;
    assert buyers == [User(1, 0, None)];
    assert FindByUser(store.orders, 1) == store.orders;
    assert RepeatBuyers(store.orders, buyers) == 1;
  }

  // ---- convertToLocalDate and convertToDouble ----

  /** `convertToLocalDate`: the date of a `java.sql.Date`, `java.sql.Timestamp`,
      `java.util.Date` or `LocalDate`; `zone` stands for reading an instant in
      the system time zone. Any other class is rejected; a null has no class. */
  function ConvertToLocalDate(v: RawValue, zone: int -> Day): (r: Result<Day, MetricsError>)
    ensures r.Success? <==> v.SqlDate? || v.SqlTimestamp? || v.UtilDate? || v.LocalDateValue?
    ensures v.Null? ==> r == Failure(NullPointer)
    ensures r.Failure? && !v.Null? ==> r == Failure(UnsupportedDateType(ClassName(v)))
    ensures v.SqlTimestamp? ==> r.Success? && StartOfDay(r.value) <= v.at < StartOfDay(r.value + 1)
  {
    match v
    case SqlDate(d) => Success(d)
    case SqlTimestamp(t) => Success(DateOf(t))
    case UtilDate(s) => Success(zone(s))
    case LocalDateValue(d) => Success(d)
    case Null => Failure(NullPointer)
    case _ => Failure(UnsupportedDateType(ClassName(v)))
  }

  /** `convertToDouble`: the value of a `BigDecimal`, `Double`, `Float`,
      `Integer` or `Long`, and 0 for null; any other class is rejected. */
  function ConvertToDouble(v: RawValue): (r: Result<real, MetricsError>)
    ensures r.Success? <==> v.Null? || v.BigDecimalValue? || v.DoubleValue? || v.FloatValue? || v.IntegerValue? || v.LongValue?
    ensures r.Failure? ==> r == Failure(UnsupportedNumberType(ClassName(v)))
    ensures v.Null? ==> r == Success(0.0)
    ensures v.BigDecimalValue? ==> r.Success? && r.value * 100.0 == v.hundredths as real
    ensures v.DoubleValue? || v.FloatValue? ==> r == Success(v.x)
    ensures v.IntegerValue? || v.LongValue? ==> r == Success(v.i as real)
  {
    match v
    case Null => Success(0.0)
    case BigDecimalValue(h) => Success(h as real / 100.0)
    case DoubleValue(x) => Success(x)
    case FloatValue(x) => Success(x)
    case IntegerValue(i) => Success(i as real)
    case LongValue(i) => Success(i as real)
    case _ => Failure(UnsupportedNumberType(ClassName(v)))
  }

  // ---- getRetentionTrend ----

  /** A row the loop decodes: two columns or more and neither of the first two null. */
  predicate Usable(row: seq<RawValue>)
  {
    |row| >= 2 && !row[0].Null? && !row[1].Null?
  }

  /** A usable row whose date or rate has an unsupported class. */
  predicate BadRow(row: seq<RawValue>, zone: int -> Day)
  {
    Usable(row) && (ConvertToLocalDate(row[0], zone).Failure? || ConvertToDouble(row[1]).Failure?)
  }

  /** The date of a usable row whose cells both decode. */
  predicate RowOn(row: seq<RawValue>, zone: int -> Day, d: Day)
  {
    Usable(row) && ConvertToLocalDate(row[0], zone) == Success(d) && ConvertToDouble(row[1]).Success?
  }

  /** One iteration of the loop of `getRetentionTrend`: an unusable row is
      skipped, a bad one throws, and a good one puts its rate under its date,
      replacing an earlier entry for that date. */
  function DecodeRow(acc: Result<map<Day, real>, MetricsError>, row: seq<RawValue>, zone: int -> Day): Result<map<Day, real>, MetricsError>
  {
    match acc
    case Failure(e) => Failure(e)
    case Success(trend) =>
      if !Usable(row) then Success(trend)
      else
        match ConvertToLocalDate(row[0], zone)
        case Failure(e) => Failure(e)
        case Success(periodStart) =>
          match ConvertToDouble(row[1])
          case Failure(e) => Failure(e)
          case Success(rate) => Success(trend[periodStart := rate])
  }

  /** The loop of `getRetentionTrend` over the rows in order. */
  function DecodeRows(rows: seq<seq<RawValue>>, zone: int -> Day): Result<map<Day, real>, MetricsError>
  {
    if rows == [] then Success(map[])
    else DecodeRow(DecodeRows(rows[..|rows| - 1], zone), rows[|rows| - 1], zone)
  }

  /** Decoding one more row. */
  lemma DecodeRowsSnoc(rows: seq<seq<RawValue>>, zone: int -> Day, i: int)
    requires 0 <= i < |rows|
    ensures DecodeRows(rows[..i + 1], zone) == DecodeRow(DecodeRows(rows[..i], zone), rows[i], zone)
  {
    assert rows[..i + 1][..i] == rows[..i];
  }

  lemma {:induction false} DecodeRowsFailureStays(rows: seq<seq<RawValue>>, zone: int -> Day, i: int)
    requires 0 <= i <= |rows| && DecodeRows(rows[..i], zone).Failure?
    ensures DecodeRows(rows, zone) == DecodeRows(rows[..i], zone)
    decreases |rows| - i
  {
    if i == |rows| {
      assert rows[..i] == rows;
    } else {
      DecodeRowsSnoc(rows, zone, i);
      DecodeRowsFailureStays(rows, zone, i + 1);
    }
  }

  /** The loop of `getRetentionTrend`: fill the map row by row; a conversion
      failure ends the call. */
  method DecodeTrend(rows: seq<seq<RawValue>>, zone: int -> Day) returns (r: Result<map<Day, real>, MetricsError>)
    ensures r == DecodeRows(rows, zone)
  {
    var trend: map<Day, real> := map[];
    if rows == [] {
      return Success(trend);
    }
    for i := 0 to |rows|
      invariant DecodeRows(rows[..i], zone) == Success(trend)
    {
      var data := rows[i];
      DecodeRowsSnoc(rows, zone, i);
      if |data| < 2 || data[0].Null? || data[1].Null? {
        continue;
      }
      var periodStart := ConvertToLocalDate(data[0], zone);
      if periodStart.Failure? {
        DecodeRowsFailureStays(rows, zone, i + 1);
        return Failure(periodStart.error);
      }
      var retentionRate := ConvertToDouble(data[1]);
      if retentionRate.Failure? {
        DecodeRowsFailureStays(rows, zone, i + 1);
        return Failure(retentionRate.error);
      }
      trend := trend[periodStart.value := retentionRate.value];
    }
    assert rows[..|rows|] == rows;
    r := Success(trend);
  }

  /** Decoding fails exactly when some usable row is bad, and then with the
      error of the first bad row: its date's error if the date does not
      decode, its rate's error otherwise. */
  lemma {:induction false} DecodeRowsFailure(rows: seq<seq<RawValue>>, zone: int -> Day)
    ensures DecodeRows(rows, zone).Failure? <==> exists i :: 0 <= i < |rows| && BadRow(rows[i], zone)
    ensures forall i :: 0 <= i < |rows| && BadRow(rows[i], zone) && (forall k :: 0 <= k < i ==> !BadRow(rows[k], zone)) ==>
      DecodeRows(rows, zone) == (if ConvertToLocalDate(rows[i][0], zone).Failure?
                                 then Failure(ConvertToLocalDate(rows[i][0], zone).error)
                                 else Failure(ConvertToDouble(rows[i][1]).error))
  {
    if rows != [] {
      var n := |rows| - 1;
      var init, row := rows[..n], rows[n];
      DecodeRowsFailure(init, zone);
      assert forall i :: 0 <= i < n ==> rows[i] == init[i];
      if DecodeRows(init, zone).Failure? {
        var j :| 0 <= j < n && BadRow(init[j], zone);
        assert BadRow(rows[j], zone);
        forall i | 0 <= i < |rows| && BadRow(rows[i], zone) && (forall k :: 0 <= k < i ==> !BadRow(rows[k], zone))
          ensures i < n
        {
        }
      } else {
        assert forall i :: 0 <= i < n ==> !BadRow(rows[i], zone);
      }
    }
  }

  /** A successful decoding has the dates of the usable rows as its keys. */
  lemma {:induction false} DecodeRowsKeys(rows: seq<seq<RawValue>>, zone: int -> Day)
    requires DecodeRows(rows, zone).Success?
    ensures forall d :: d in DecodeRows(rows, zone).value <==> exists i :: 0 <= i < |rows| && RowOn(rows[i], zone, d)
  {
    if rows != [] {
      var n := |rows| - 1;
      var init, row := rows[..n], rows[n];
      assert DecodeRows(init, zone).Success?;
      DecodeRowsKeys(init, zone);
      assert forall i :: 0 <= i < n ==> rows[i] == init[i];
      var trend := DecodeRows(init, zone).value;
      if Usable(row) {
        var d := ConvertToLocalDate(row[0], zone).value;
        assert RowOn(row, zone, d);
        assert forall e :: RowOn(row, zone, e) ==> e == d;
        assert DecodeRows(rows, zone).value == trend[d := ConvertToDouble(row[1]).value];
      } else {
        assert forall e :: !RowOn(row, zone, e);
      }
    }
  }

  /** In a successful decoding each date holds the rate of the last row on it. */
  lemma {:induction false} DecodeRowsLastWins(rows: seq<seq<RawValue>>, zone: int -> Day, i: int, d: Day)
    requires DecodeRows(rows, zone).Success?
    requires 0 <= i < |rows| && RowOn(rows[i], zone, d)
    requires forall k :: i < k < |rows| ==> !RowOn(rows[k], zone, d)
    ensures d in DecodeRows(rows, zone).value
    ensures DecodeRows(rows, zone).value[d] == ConvertToDouble(rows[i][1]).value
  {
    var n := |rows| - 1;
    var init, row := rows[..n], rows[n];
    assert DecodeRows(init, zone).Success?;
    var trend := DecodeRows(init, zone).value;
    if i == n {
      assert DecodeRows(rows, zone).value == trend[d := ConvertToDouble(row[1]).value];
    } else {
      assert init[i] == rows[i];
      DecodeRowsLastWins(init, zone, i, d);
      if Usable(row) {
        var e := ConvertToLocalDate(row[0], zone).value;
        assert RowOn(row, zone, e);
        assert DecodeRows(rows, zone).value == trend[e := ConvertToDouble(row[1]).value];
      }
    }
  }

  /** Each cohort start mapped to its percentage, as a number. */
  function CohortTrend(cs: seq<Cohort>): map<Day, real>
  {
    if cs == [] then map[]
    else CohortTrend(cs[..|cs| - 1])[cs[|cs| - 1].start := CohortRate(cs[|cs| - 1]) as real / 100.0]
  }

  /** The rows the cohort queries return always decode, to the cohort trend. */
  lemma {:induction false} DecodeCohortRows(cs: seq<Cohort>, zone: int -> Day)
    ensures DecodeRows(TrendRows(cs), zone) == Success(CohortTrend(cs))
  {
    if cs != [] {
      var n := |cs| - 1;
      DecodeCohortRows(cs[..n], zone);
      var rows := TrendRows(cs);
      assert rows[..n] == TrendRows(cs[..n]);
    }
  }

  /** With ascending starts, the cohort trend maps each cohort's start to its
      percentage, which lies in [0, 100], and has no other key. */
  lemma {:induction false} CohortTrendMeaning(cs: seq<Cohort>)
    requires forall i, j :: 0 <= i < j < |cs| ==> cs[i].start < cs[j].start
    requires forall c :: c in cs ==> 0 < c.total && c.retained <= c.total
    ensures forall d :: d in CohortTrend(cs) <==> exists c :: c in cs && c.start == d
    ensures forall c :: c in cs ==>
      && c.start in CohortTrend(cs)
      && CohortTrend(cs)[c.start] == CohortRate(c) as real / 100.0
      && 0.0 <= CohortTrend(cs)[c.start] <= 100.0
  {
    if cs != [] {
      var n := |cs| - 1;
      var init, last := cs[..n], cs[n];
      CohortTrendMeaning(init);
      assert forall c :: c in cs <==> c in init || c == last;
      forall c | c in init
        ensures c.start != last.start
      {
        var i :| 0 <= i < n && init[i] == c;
      }
      CohortRateMeaning(last);
    }
  }

  /** The cohort rows `getRetentionTrend` reads: weekly for "week" or "day"
      (ignoring case), monthly for any other string. */
  function TrendRowsFor(users: seq<User>, start: Instant, end: Instant, aggregation: string, monthStart: Day -> Day): seq<seq<RawValue>>
  {
    if EqualsIgnoreCase("week", aggregation) || EqualsIgnoreCase("day", aggregation)
    then WeeklyRetentionTrend(users, start, end)
    else MonthlyRetentionTrend(users, start, end, monthStart)
  }

  /** The truncation the chosen query groups by. */
  function TrendBucket(aggregation: string, monthStart: Day -> Day): Day -> Day
  {
    if EqualsIgnoreCase("week", aggregation) || EqualsIgnoreCase("day", aggregation)
    then WeekStart else monthStart
  }

  /** What `getRetentionTrend` returns. */
  function RetentionTrend(users: seq<User>, start: Instant, end: Instant, aggregation: string,
                          monthStart: Day -> Day, zone: int -> Day): Result<map<Day, real>, MetricsError>
  {
    DecodeRows(TrendRowsFor(users, start, end, aggregation, monthStart), zone)
  }

  /** `getRetentionTrend(start, end, aggregation)`. */
  method GetRetentionTrend(users: seq<User>, start: Instant, end: Instant, aggregation: string,
                           monthStart: Day -> Day, zone: int -> Day)
    returns (trend: Result<map<Day, real>, MetricsError>)
    ensures trend == RetentionTrend(users, start, end, aggregation, monthStart, zone)
  {
    var retentionData := TrendRowsFor(users, start, end, aggregation, monthStart);
    trend := DecodeTrend(retentionData, zone);
  }

  /** The trend never fails on the rows the queries return: its keys are the
      cohort starts (week starts for "week" and "day", month starts otherwise)
      of the users registered in the period, and each value is that cohort's
      rounded percentage, between 0 and 100. */
  lemma RetentionTrendMeaning(users: seq<User>, start: Instant, end: Instant, aggregation: string,
                              monthStart: Day -> Day, zone: int -> Day)
    ensures RetentionTrend(users, start, end, aggregation, monthStart, zone).Success?
    ensures forall d :: (d in RetentionTrend(users, start, end, aggregation, monthStart, zone).value
                         <==> d in CohortKeys(users, start, end, TrendBucket(aggregation, monthStart)))
    ensures forall c :: c in Cohorts(users, start, end, TrendBucket(aggregation, monthStart)) ==>
      RetentionTrend(users, start, end, aggregation, monthStart, zone).value[c.start] == CohortRate(c) as real / 100.0
    ensures forall d :: d in RetentionTrend(users, start, end, aggregation, monthStart, zone).value ==>
      (0.0 <= RetentionTrend(users, start, end, aggregation, monthStart, zone).value[d] <= 100.0)
  {
    var trunc := TrendBucket(aggregation, monthStart);
    var cs := Cohorts(users, start, end, trunc);
    assert TrendRowsFor(users, start, end, aggregation, monthStart) == TrendRows(cs);
    DecodeCohortRows(cs, zone);
    CohortTrendMeaning(cs);
    var m := RetentionTrend(users, start, end, aggregation, monthStart, zone).value;
    forall d | d in CohortKeys(users, start, end, trunc)
      ensures d in m
    {
      var c := Cohort(d, CohortSize(users, start, end, trunc, d), CohortRetained(users, start, end, trunc, d));
      assert c in cs;
    }
    forall d | d in m
      ensures d in CohortKeys(users, start, end, trunc) && 0.0 <= m[d] <= 100.0
    {
      var c :| c in cs && c.start == d;
    }
  }
}
