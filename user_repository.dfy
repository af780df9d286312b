/** The queries of `UserRepository`, as functions over the `users` table (and
    the `orders` table for the join). SQL's `BETWEEN` includes both bounds. */
module UserRepository {
  import opened Common
  import opened Calendar
  import opened Entities

  /** A non-null last activity inside the period. */
  predicate ActiveBetween(u: User, start: Instant, end: Instant)
  {
    u.lastActivityDate.Some? && Between(u.lastActivityDate.value, start, end)
  }

  predicate RegisteredBetween(u: User, start: Instant, end: Instant)
  {
    Between(u.registrationDate, start, end)
  }

  /** `countByLastActivityDateBetween` */
  function CountByLastActivityDateBetween(users: seq<User>, start: Instant, end: Instant): (n: nat)
    ensures n <= |users|
    ensures n == 0 <==> forall u :: u in users ==> !ActiveBetween(u, start, end)
  {
    if users == [] then 0
    else
      assert forall u :: u in users ==> u == users[0] || u in users[1..];
      (if ActiveBetween(users[0], start, end) then 1 else 0)
        + CountByLastActivityDateBetween(users[1..], start, end)
  }

  /** `countByRegistrationDateBetween` */
  function CountByRegistrationDateBetween(users: seq<User>, start: Instant, end: Instant): (n: nat)
    ensures n <= |users|
    ensures n == 0 <==> forall u :: u in users ==> !RegisteredBetween(u, start, end)
  {
    if users == [] then 0
    else
      assert forall u :: u in users ==> u == users[0] || u in users[1..];
      (if RegisteredBetween(users[0], start, end) then 1 else 0)
        + CountByRegistrationDateBetween(users[1..], start, end)
  }

  /** A row `(cast(lastActivityDate as date), id)` of `getDailyActiveUsers`. */
  datatype ActivityRow = ActivityRow(date: Day, userId: UserId)

  function ActivityRowOf(u: User): ActivityRow
    requires u.lastActivityDate.Some?
  {
    ActivityRow(DateOf(u.lastActivityDate.value), u.id)
  }

  /** `getDailyActiveUsers`: one row per user whose last activity lies in the
      period (the rows' order does not matter to the only caller). */
  function DailyActiveUsers(users: seq<User>, start: Instant, end: Instant): (rows: seq<ActivityRow>)
    ensures |rows| == CountByLastActivityDateBetween(users, start, end)
    ensures forall r :: r in rows ==>
      exists u :: u in users && ActiveBetween(u, start, end) && r == ActivityRowOf(u)
    ensures forall u :: u in users && ActiveBetween(u, start, end) ==> ActivityRowOf(u) in rows
  {
    if users == [] then []
    else
      var rest := DailyActiveUsers(users[1..], start, end);
      assert forall u :: u in users ==> u == users[0] || u in users[1..];
      if ActiveBetween(users[0], start, end) then [ActivityRowOf(users[0])] + rest else rest
  }

  /** With unique user identifiers, an identifier occurs under one date at most:
      the daily sets built from these rows are pairwise disjoint. */
  lemma DailyActiveUsersOneDatePerUser(users: seq<User>, start: Instant, end: Instant)
    requires UniqueUserIds(users)
    ensures forall r1, r2 ::
      (r1 in DailyActiveUsers(users, start, end) && r2 in DailyActiveUsers(users, start, end)
       && r1.userId == r2.userId) ==> r1.date == r2.date
  {
    var rows := DailyActiveUsers(users, start, end);
    forall r1, r2 | r1 in rows && r2 in rows && r1.userId == r2.userId
      ensures r1.date == r2.date
    {
      var u1 :| u1 in users && ActiveBetween(u1, start, end) && r1 == ActivityRowOf(u1);
      var u2 :| u2 in users && ActiveBetween(u2, start, end) && r2 == ActivityRowOf(u2);
      var i :| 0 <= i < |users| && users[i] == u1;
      var j :| 0 <= j < |users| && users[j] == u2;
      assert users[i].id == users[j].id;
      assert i == j;
    }
  }

  /** An entry of the `cohorts` table expression: users registered in the same
      week (or month), how many there are and how many came back. */
  datatype Cohort = Cohort(start: Day, total: nat, retained: nat)

  /** `DATE_TRUNC('week' or 'month', registration_date)::date` */
  function CohortKey(u: User, trunc: Day -> Day): Day
  {
    trunc(DateOf(u.registrationDate))
  }

  /** `last_activity_date >= cohort_start + 7`: a null activity never counts. */
  predicate ReturnedAfterFirstWeek(u: User, cohortStart: Day)
  {
    u.lastActivityDate.Some? && u.lastActivityDate.value >= StartOfDay(cohortStart + 7)
  }

  function CohortKeys(users: seq<User>, start: Instant, end: Instant, trunc: Day -> Day): set<Day>
  {
    set u | u in users && RegisteredBetween(u, start, end) :: CohortKey(u, trunc)
  }

  /** `COUNT(*)` of one group. */
  function CohortSize(users: seq<User>, start: Instant, end: Instant, trunc: Day -> Day, key: Day): (n: nat)
    ensures n <= |users|
    ensures n > 0 <==> key in CohortKeys(users, start, end, trunc)
  {
    if users == [] then 0
    else
      var rest := CohortSize(users[1..], start, end, trunc, key);
      assert CohortKeys(users, start, end, trunc)
        == (if RegisteredBetween(users[0], start, end) then {CohortKey(users[0], trunc)} else {})
           + CohortKeys(users[1..], start, end, trunc);
      (if RegisteredBetween(users[0], start, end) && CohortKey(users[0], trunc) == key then 1 else 0) + rest
  }

  /** `COUNT(*) FILTER (WHERE last_activity_date >= cohort_start + 7)` of one group. */
  function CohortRetained(users: seq<User>, start: Instant, end: Instant, trunc: Day -> Day, key: Day): (n: nat)
    ensures n <= CohortSize(users, start, end, trunc, key)
  {
    if users == [] then 0
    else
      (if RegisteredBetween(users[0], start, end) && CohortKey(users[0], trunc) == key
          && ReturnedAfterFirstWeek(users[0], key) then 1 else 0)
      + CohortRetained(users[1..], start, end, trunc, key)
  }

  /** The `cohorts` table expression, `ORDER BY` cohort start: users registered
      in the period grouped by the truncation of their registration date. */
  function Cohorts(users: seq<User>, start: Instant, end: Instant, trunc: Day -> Day): (cs: seq<Cohort>)
    ensures forall i, j :: 0 <= i < j < |cs| ==> cs[i].start < cs[j].start
    ensures forall c :: c in cs <==>
      && c.start in CohortKeys(users, start, end, trunc)
      && c.total == CohortSize(users, start, end, trunc, c.start)
      && c.retained == CohortRetained(users, start, end, trunc, c.start)
    ensures forall c :: c in cs ==> 0 < c.total && c.retained <= c.total
  {
    var keys := SortedSeq(CohortKeys(users, start, end, trunc));
    var cs := CohortsAt(users, start, end, trunc, keys);
    CohortsAtMembers(users, start, end, trunc, keys);
    cs
  }

  /** One cohort per key, in the order of the keys. */
  function CohortsAt(users: seq<User>, start: Instant, end: Instant, trunc: Day -> Day, keys: seq<Day>): (cs: seq<Cohort>)
    ensures |cs| == |keys|
    ensures forall i :: 0 <= i < |keys| ==>
      (&& cs[i].start == keys[i]
       && cs[i].total == CohortSize(users, start, end, trunc, keys[i])
       && cs[i].retained == CohortRetained(users, start, end, trunc, keys[i]))
  {
    seq(|keys|, i requires 0 <= i < |keys| =>
      Cohort(keys[i], CohortSize(users, start, end, trunc, keys[i]), CohortRetained(users, start, end, trunc, keys[i])))
  }

  lemma CohortsAtMembers(users: seq<User>, start: Instant, end: Instant, trunc: Day -> Day, keys: seq<Day>)
    requires forall k :: k in keys <==> k in CohortKeys(users, start, end, trunc)
    ensures forall c :: c in CohortsAt(users, start, end, trunc, keys) <==>
      && c.start in CohortKeys(users, start, end, trunc)
      && c.total == CohortSize(users, start, end, trunc, c.start)
      && c.retained == CohortRetained(users, start, end, trunc, c.start)
  {
    var cs := CohortsAt(users, start, end, trunc, keys);
    forall c | c in cs
      ensures c.start in CohortKeys(users, start, end, trunc)
    {
      var i :| 0 <= i < |cs| && cs[i] == c;
      assert keys[i] in keys;
    }
    forall c: Cohort | c.start in CohortKeys(users, start, end, trunc)
      && c.total == CohortSize(users, start, end, trunc, c.start)
      && c.retained == CohortRetained(users, start, end, trunc, c.start)
      ensures c in cs
    {
      var i :| 0 <= i < |keys| && keys[i] == c.start;
      assert cs[i] == c;
    }
  }

  /** `CASE WHEN total_users > 0 THEN ROUND(retained_users * 100.0 / total_users, 2)
      ELSE 0.0 END`, in hundredths of a percent. */
  function CohortRate(c: Cohort): int
  {
    if c.total > 0 then DivideHalfUp(c.retained * 10000, c.total) else 0
  }

  /** A cohort's percentage lies in [0, 100]; it is 100 when every member came
      back and 0 when none did. (Rounding to two places can also give 100.00 or
      0.00 for a cohort of 20000 or more users that is not complete or empty.) */
  lemma CohortRateMeaning(c: Cohort)
    requires 0 < c.total && c.retained <= c.total
    ensures 0 <= CohortRate(c) <= 10000
    ensures c.retained == c.total ==> CohortRate(c) == 10000
    ensures c.retained == 0 ==> CohortRate(c) == 0
  {
    assert c.retained * 10000 <= 10000 * c.total;
    DivideHalfUpBetween(c.retained * 10000, c.total, 0, 10000);
    if c.retained == c.total {
      DivideHalfUpExact(10000, c.total);
      assert c.retained * 10000 == 10000 * c.total;
    }
    if c.retained == 0 {
      DivideHalfUpExact(0, c.total);
    }
  }

  /** The result rows `(cohort_start, retention_rate)` as JDBC returns them: a
      `java.sql.Date` and, since `ROUND` of a `DOUBLE` is a `DOUBLE`, a
      `java.lang.Double`. */
  function TrendRows(cs: seq<Cohort>): (rows: seq<seq<RawValue>>)
    ensures |rows| == |cs|
  {
    seq(|cs|, i requires 0 <= i < |cs| => [SqlDate(cs[i].start), DoubleValue(CohortRate(cs[i]) as real / 100.0)])
  }

  /** Over the cohorts of the `cohorts` table the rows come in ascending date
      order, each with two non-null cells: the cohort start as a date and its
      rounded percentage, between 0 and 100, as a number. */
  lemma TrendRowsMeaning(cs: seq<Cohort>)
    requires forall i, j :: 0 <= i < j < |cs| ==> cs[i].start < cs[j].start
    requires forall c :: c in cs ==> 0 < c.total && c.retained <= c.total
    ensures var rows := TrendRows(cs);
      forall i :: 0 <= i < |rows| ==>
        && |rows[i]| == 2 && rows[i][0] == SqlDate(cs[i].start) && rows[i][1].DoubleValue?
        && rows[i][1].x * 100.0 == CohortRate(cs[i]) as real
        && 0.0 <= rows[i][1].x <= 100.0
    ensures var rows := TrendRows(cs);
      forall i, j :: 0 <= i < j < |rows| ==> rows[i][0].date < rows[j][0].date
  {
    forall i | 0 <= i < |cs|
      ensures 0 <= CohortRate(cs[i]) <= 10000
    {
      CohortRateMeaning(cs[i]);
    }
  }

  /** `getWeeklyRetentionTrend` */
  function WeeklyRetentionTrend(users: seq<User>, start: Instant, end: Instant): seq<seq<RawValue>>
  {
    TrendRows(Cohorts(users, start, end, WeekStart))
  }

  /** `getMonthlyRetentionTrend`: the same rule with month cohorts; the return
      threshold is still the cohort start plus seven days. */
  function MonthlyRetentionTrend(users: seq<User>, start: Instant, end: Instant, monthStart: Day -> Day): seq<seq<RawValue>>
  {
    TrendRows(Cohorts(users, start, end, monthStart))
  }

  /** The join `User u JOIN u.orders o WHERE o.orderDate < :end` is non-empty. */
  predicate HasOrderBefore(orders: seq<Order>, id: UserId, end: Instant)
  {
    exists o :: o in orders && o.userId == id && o.orderDate < end
  }

  /** `findUsersWithAnyOrdersBefore`: each user with an order strictly before
      `end`, once; users without orders never appear. */
  function UsersWithAnyOrdersBefore(users: seq<User>, orders: seq<Order>, end: Instant): (r: seq<User>)
    ensures |r| <= |users|
    ensures forall u :: u in r <==> u in users && HasOrderBefore(orders, u.id, end)
    ensures UniqueUserIds(users) ==> UniqueUserIds(r)
  {
    if users == [] then []
    else
      var rest := UsersWithAnyOrdersBefore(users[1..], orders, end);
      assert forall u :: u in users ==> u == users[0] || u in users[1..];
      if HasOrderBefore(orders, users[0].id, end) then
        assert UniqueUserIds(users) ==> forall v :: v in rest ==> v.id != users[0].id by {
          if UniqueUserIds(users) {
            forall v | v in rest ensures v.id != users[0].id {
              var j :| 1 <= j < |users| && users[j] == v;
            }
          }
        }
        [users[0]] + rest
      else rest
  }
}
