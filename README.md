# Edu-analytrics metrics engine in Dafny

This project models the metrics engine of the Edu-analytrics dashboard, a
Spring application that reports on an online school's users, courses and
orders. The model covers these parts:

- **Audience.** `AudienceMetricsService` turns the daily-active rows into a
  map from date to user ids, optionally regroups them by ISO week or
  calendar month, and computes DAU plus rolling 7-day (WAU) and 30-day
  (MAU) counts.
- **Retention.** `RetentionMetricsService` computes the lifetime
  repeat-purchase rate and the cohort retention trend, decoding untyped
  JDBC rows.
- **Money.** `FinancialMetricsService` computes LTV, CAC and ARPPU as
  `BigDecimal` quotients at scale 2 with HALF_UP rounding.
- **Products.** `ProductMetricsService` keeps the five best-selling
  courses of a period.
- **Composition.** `MetricsFacadeService` builds the dashboard counters
  and the complete response, choosing a day, week or month granularity
  from the period's calendar span.
- **Queries.** The `UserRepository` and `OrderRepository` queries these
  services rely on are modelled as functions over the tables.
- **Period.** `DashboardController.calculatePeriod` turns a period
  keyword into a half-open `[start, end)` range.

Representation:

- A date (`Day`) is a day number counted from 1970-01-01. A timestamp
  (`Instant`) is a count of seconds of local time.
- Money is whole hundredths. The `double` rates are reals.
- The tables are sequences of records in a `Store`.
- Untyped result cells are a `RawValue` datatype that names the cell's
  Java class.
- A Java exception is the `Failure` arm of a `Result`.

Stateful code keeps its loops: the rolling window, the map filling, the
repeat-buyer counter and the trend decoding loop are methods. Each is
proved equal to a specification function, and the lemmas about that
function carry the properties.

Some behaviour of the code differs from what such metrics usually mean.
The model follows the code:

- **The rolling window is not a true union.** WAU and MAU are meant as
  the numbers of distinct users of the trailing 7 and 30 days. The code
  removes a leaving date's ids with `removeAll` even when a later queued
  date also holds them. The model proves two things:
  - the count is the true union when the daily sets are pairwise
    disjoint. They always are for the rows `getDailyActiveUsers`
    returns, because that query gives one row per user.
  - `MAU >= WAU` fails for overlapping sets
    (`AudienceMetrics.MauBelowWauExample`).
- **A reversed period gives a CAC of zero.** The CAC of a reversed period
  is never negative, although its prorated cost is. The reason is that
  `countByRegistrationDateBetween` matches nobody when `end < start`, so
  the ZERO branch is taken.
- **The zero-member cohort case cannot occur.** The cohort queries'
  `ELSE 0.0` branch is unreachable, because every group has a member.
  The monthly query keeps the weekly return threshold of cohort start
  plus seven days.

## Model

| member | source | states |
|---|---|---|
| Common.ToLower | src/main/java/com/linter/eduanalitycs/controller/DashboardController.java:53 | `toLowerCase` keeps the length and lowers each character in place, 'A' to 'Z' and the KELVIN SIGN included |
| Common.EqualsIgnoreCaseLowerKeyword | src/main/java/com/linter/eduanalitycs/service/RetentionMetricsService.java:46 | for a keyword that is its own lower case, `equalsIgnoreCase` holds exactly when the argument lowers to the keyword |
| Common.KelvinSignWeek | src/main/java/com/linter/eduanalitycs/service/AudienceMetricsService.java:35 | "WEE" followed by a KELVIN SIGN lowers to "week" and equals "week" ignoring case, as in Java |
| Common.SortedSeq | src/main/java/com/linter/eduanalitycs/service/AudienceMetricsService.java:80-81 | sorting the key set gives a strictly ascending list holding exactly the keys |
| Common.DivideHalfUp | src/main/java/com/linter/eduanalitycs/service/FinancialMetricsService.java:24-26 | `divide(n, 2, HALF_UP)` is the quotient rounded to the nearest hundredth, ties away from zero, for either sign |
| Common.DivideHalfUpBetween | src/main/java/com/linter/eduanalitycs/service/FinancialMetricsService.java:24-26 | the rounded quotient stays within whole bounds of the exact quotient |
| Common.DivideHalfUpExact | src/main/java/com/linter/eduanalitycs/service/FinancialMetricsService.java:24-26 | an exact multiple divides without rounding |
| Calendar.DateOf | src/main/java/com/linter/eduanalitycs/repository/UserRepository.java:14 | `cast(ts as date)` / `toLocalDate` gives the day whose midnight-to-midnight range holds the timestamp |
| Calendar.DateOfStartOfDay | src/main/java/com/linter/eduanalitycs/controller/DashboardController.java:59 | `atStartOfDay` followed by `toLocalDate` gives back the date |
| Calendar.WholeDaysBetween | src/main/java/com/linter/eduanalitycs/service/FinancialMetricsService.java:48 | `ChronoUnit.DAYS.between` counts the complete 24-hour periods, truncated toward zero, with the sign of `end - start` |
| Calendar.IsoDayOfWeek | src/main/java/com/linter/eduanalitycs/service/AudienceMetricsService.java:36 | `getDayOfWeek().getValue()` is in 1..7 |
| Calendar.IsoDayOfWeekCalendar | src/main/java/com/linter/eduanalitycs/service/AudienceMetricsService.java:36 | the weekday is pinned to the calendar: 1970-01-01 is a Thursday, 2024-01-01 a Monday, and each day is the next weekday after the one before |
| Calendar.WeekStart | src/main/java/com/linter/eduanalitycs/service/AudienceMetricsService.java:36 | the week key is the Monday 0 to 6 days on or before the date |
| Calendar.WeekStartIsCoarse | src/main/java/com/linter/eduanalitycs/repository/UserRepository.java:30 | week truncation never moves a date forward, fixes its keys, and keeps different keys a week apart |
| Calendar.MonthStartIsCoarse | src/main/java/com/linter/eduanalitycs/service/AudienceMetricsService.java:37 | month truncation never moves a date forward, fixes its keys, and keeps different keys a week apart |
| UserRepository.CountByLastActivityDateBetween | src/main/java/com/linter/eduanalitycs/repository/UserRepository.java:20 | the count is at most the table size and is zero exactly when no user has a last activity inside the inclusive range |
| UserRepository.CountByRegistrationDateBetween | src/main/java/com/linter/eduanalitycs/repository/UserRepository.java:21 | the count is at most the table size and is zero exactly when nobody registered inside the inclusive range |
| UserRepository.DailyActiveUsers | src/main/java/com/linter/eduanalitycs/repository/UserRepository.java:14-18 | one `(date, id)` row per user active in the range, and that row for each of them |
| UserRepository.DailyActiveUsersOneDatePerUser | src/main/java/com/linter/eduanalitycs/repository/UserRepository.java:14-18 | with unique ids, an id appears under one date at most |
| UserRepository.CohortSize | src/main/java/com/linter/eduanalitycs/repository/UserRepository.java:29-37 | a cohort's size is positive exactly when its key is the truncated registration date of someone registered in the period |
| UserRepository.CohortRetained | src/main/java/com/linter/eduanalitycs/repository/UserRepository.java:32-34 | the retained count never exceeds the cohort size |
| UserRepository.Cohorts | src/main/java/com/linter/eduanalitycs/repository/UserRepository.java:28-46 | one cohort per key, ascending by start, each with its group's size and retained count, every size positive |
| UserRepository.CohortRateMeaning | src/main/java/com/linter/eduanalitycs/repository/UserRepository.java:40-44 | the rounded rate lies in [0, 100]; it is 100 for a fully retained cohort and 0 for a cohort with no one retained |
| UserRepository.CohortRate | src/main/java/com/linter/eduanalitycs/repository/UserRepository.java:40-44 | the rounded percentage in hundredths: `CohortRateMeaning` proves its range and end points |
| UserRepository.TrendRows | src/main/java/com/linter/eduanalitycs/repository/UserRepository.java:39-46 | one result row per cohort, in cohort order; `TrendRowsMeaning` states the cells |
| UserRepository.TrendRowsMeaning | src/main/java/com/linter/eduanalitycs/repository/UserRepository.java:39-46 | over the cohort table the rows come ascending by date, each a `java.sql.Date` of the cohort start and a `Double` rate in [0, 100], the cohort's rounded percentage |
| UserRepository.WeeklyRetentionTrend | src/main/java/com/linter/eduanalitycs/repository/UserRepository.java:27-51 | the week cohorts' rows: `RetentionTrendMeaning` proves what they decode to |
| UserRepository.MonthlyRetentionTrend | src/main/java/com/linter/eduanalitycs/repository/UserRepository.java:53-77 | the month cohorts' rows, with the same seven-day threshold: `RetentionTrendMeaning` proves what they decode to |
| UserRepository.UsersWithAnyOrdersBefore | src/main/java/com/linter/eduanalitycs/repository/UserRepository.java:79-80 | exactly the users with an order strictly before `end`, each once, none without orders |
| OrderRepository.CountByOrderDateBetween | src/main/java/com/linter/eduanalitycs/repository/OrderRepository.java:33 | the count is at most the number of orders and is zero exactly when no order date is in range |
| OrderRepository.TotalRevenueBetween | src/main/java/com/linter/eduanalitycs/repository/OrderRepository.java:35-36 | `COALESCE` makes the sum 0 when no order is in range; it is non-negative for non-negative amounts |
| OrderRepository.TotalRevenue | src/main/java/com/linter/eduanalitycs/repository/OrderRepository.java:18-19 | the sum without `COALESCE` is null exactly when there are no orders |
| OrderRepository.TotalRevenueCoversPeriod | src/main/java/com/linter/eduanalitycs/repository/OrderRepository.java:18-36 | over a range that holds every order, the unbounded sum equals the range sum |
| OrderRepository.PayingUsersAtMostOrders | src/main/java/com/linter/eduanalitycs/repository/OrderRepository.java:21-23 | distinct paying users never outnumber the period's orders, and are zero exactly when there are no orders |
| OrderRepository.CountDistinctPayingUsersBetween | src/main/java/com/linter/eduanalitycs/repository/OrderRepository.java:21-23 | the distinct users of the period's orders: `PayingUsersAtMostOrders` bounds it by the order count |
| OrderRepository.FindByUser | src/main/java/com/linter/eduanalitycs/repository/OrderRepository.java:41 | exactly the user's orders, whatever their date |
| OrderRepository.CourseSales | src/main/java/com/linter/eduanalitycs/repository/OrderRepository.java:25-29 | a course's count is zero exactly when none of its orders falls in range |
| OrderRepository.Groups | src/main/java/com/linter/eduanalitycs/repository/OrderRepository.java:25-28 | one group per course with an order in range, holding its count and amount sum |
| OrderRepository.InsertBySales | src/main/java/com/linter/eduanalitycs/repository/OrderRepository.java:29 | inserting keeps the rows in descending count order and adds exactly the new row |
| OrderRepository.SortBySalesDesc | src/main/java/com/linter/eduanalitycs/repository/OrderRepository.java:29 | `ORDER BY COUNT DESC` gives a non-increasing permutation of the groups |
| OrderRepository.ProductPerformanceMeaning | src/main/java/com/linter/eduanalitycs/repository/OrderRepository.java:25-31 | the rows are sorted by count descending and are exactly the groups of courses that sold in the period |
| OrderRepository.ProductPerformance | src/main/java/com/linter/eduanalitycs/repository/OrderRepository.java:25-31 | the groups sorted by count: `ProductPerformanceMeaning` and `ProductPerformanceAddsUp` prove what the rows are and that they add up |
| OrderRepository.InsertKeepsTotals | src/main/java/com/linter/eduanalitycs/repository/OrderRepository.java:29 | insertion keeps the count and revenue totals |
| OrderRepository.SortKeepsTotals | src/main/java/com/linter/eduanalitycs/repository/OrderRepository.java:29 | sorting keeps the count and revenue totals |
| OrderRepository.AllCourseTotalsIsRangeTotal | src/main/java/com/linter/eduanalitycs/repository/OrderRepository.java:25-28 | when every order names one existing course, the per-course totals add up to the range total |
| OrderRepository.GroupsTotals | src/main/java/com/linter/eduanalitycs/repository/OrderRepository.java:25-28 | the groups' totals are the per-course totals over the course table |
| OrderRepository.ProductPerformanceAddsUp | src/main/java/com/linter/eduanalitycs/repository/OrderRepository.java:25-36 | in a valid store the rows' counts sum to `countByOrderDateBetween` and their revenues to `getTotalRevenueBetween` |
| OrderRepository.ProductPerformanceRows | src/main/java/com/linter/eduanalitycs/repository/OrderRepository.java:30-31 | the untyped result has one row per product row |
| AudienceMetrics.MapDailyActiveUsers | src/main/java/com/linter/eduanalitycs/service/AudienceMetricsService.java:46-54 | the method's loop builds the date-to-ids map of the rows |
| AudienceMetrics.DailyMapSnoc | src/main/java/com/linter/eduanalitycs/service/AudienceMetricsService.java:51 | one more row adds its id under its date |
| AudienceMetrics.DailyMapMeaning | src/main/java/com/linter/eduanalitycs/service/AudienceMetricsService.java:46-54 | the keys are the rows' dates, no set is empty, and an id is under a date exactly when that row exists |
| AudienceMetrics.DailyMap | src/main/java/com/linter/eduanalitycs/service/AudienceMetricsService.java:46-54 | the date-to-ids map of the rows: `DailyMapMeaning` proves its keys and sets |
| AudienceMetrics.DailyActiveUsersDisjoint | src/main/java/com/linter/eduanalitycs/service/AudienceMetricsService.java:46-54 | the query's rows over unique ids give pairwise disjoint daily sets |
| AudienceMetrics.AddAll | src/main/java/com/linter/eduanalitycs/service/AudienceMetricsService.java:41 | after `computeIfAbsent(..).addAll` the key is present, its set is its old set (empty if absent) joined with the ids, and every other entry is unchanged |
| AudienceMetrics.AggregateDailyData | src/main/java/com/linter/eduanalitycs/service/AudienceMetricsService.java:27-44 | "day" in any case returns the map itself, and any other string re-buckets it by week, by month or by the date itself |
| AudienceMetrics.RebucketEntries | src/main/java/com/linter/eduanalitycs/service/AudienceMetricsService.java:32-43 | the loop over the entries, in any order, gives the re-bucketed map |
| AudienceMetrics.RebucketMeaning | src/main/java/com/linter/eduanalitycs/service/AudienceMetricsService.java:33-43 | each bucket key is the bucket of some date, its set is the union of those dates' sets, and all ids are kept |
| AudienceMetrics.Rebucket | src/main/java/com/linter/eduanalitycs/service/AudienceMetricsService.java:32-43 | each date's set filed under its bucket: `RebucketMeaning` proves the buckets are unions of their dates' sets |
| AudienceMetrics.BucketOf | src/main/java/com/linter/eduanalitycs/service/AudienceMetricsService.java:35-39 | the Monday for "week", the first of the month for "month", the date itself otherwise: `AggregateMeaning` proves the resulting key spacing |
| AudienceMetrics.RebucketSameDay | src/main/java/com/linter/eduanalitycs/service/AudienceMetricsService.java:38 | the `default` arm leaves the map unchanged |
| AudienceMetrics.RebucketIdempotent | src/main/java/com/linter/eduanalitycs/service/AudienceMetricsService.java:35-41 | re-bucketing twice by a truncation equals doing it once |
| AudienceMetrics.RebucketKeepsDisjoint | src/main/java/com/linter/eduanalitycs/service/AudienceMetricsService.java:41 | re-bucketing keeps the daily sets pairwise disjoint |
| AudienceMetrics.RebucketCoarseKeysApart | src/main/java/com/linter/eduanalitycs/service/AudienceMetricsService.java:36-37 | week and month buckets leave keys at least seven days apart |
| AudienceMetrics.AggregateMeaning | src/main/java/com/linter/eduanalitycs/service/AudienceMetricsService.java:27-44 | "week" or "month" in any case gives keys a week apart; any other string keeps the map; all ids are kept |
| AudienceMetrics.Aggregate | src/main/java/com/linter/eduanalitycs/service/AudienceMetricsService.java:27-44 | the map `aggregateDailyData` returns: `AggregateMeaning` proves what it keeps |
| AudienceMetrics.CalculateDau | src/main/java/com/linter/eduanalitycs/service/AudienceMetricsService.java:64-68 | one DAU entry per key, equal to its set's size, with no zero entries for gaps |
| AudienceMetrics.Dau | src/main/java/com/linter/eduanalitycs/service/AudienceMetricsService.java:64-68 | each key's set size: `CalculateDau` proves the loop builds it, with no entries for gaps |
| AudienceMetrics.EvictStep | src/main/java/com/linter/eduanalitycs/service/AudienceMetricsService.java:88-90 | removing the front date's ids moves the window start to the next date |
| AudienceMetrics.AddStep | src/main/java/com/linter/eduanalitycs/service/AudienceMetricsService.java:93-94 | adding a new last date's ids extends the window to it |
| AudienceMetrics.SortedDates | src/main/java/com/linter/eduanalitycs/service/AudienceMetricsService.java:80-81 | the date list is the keys in ascending order |
| AudienceMetrics.EvictFront | src/main/java/com/linter/eduanalitycs/service/AudienceMetricsService.java:88-90 | one eviction step removes the front date from the running set |
| AudienceMetrics.AddDate | src/main/java/com/linter/eduanalitycs/service/AudienceMetricsService.java:93-94 | queueing the next date adds its ids to the running set |
| AudienceMetrics.RunningIsWindow | src/main/java/com/linter/eduanalitycs/service/AudienceMetricsService.java:93-96 | after insertion, the running set's size is the date's rolling count over `[d - (days - 1), d]` |
| AudienceMetrics.RecordedCountsMeaning | src/main/java/com/linter/eduanalitycs/service/AudienceMetricsService.java:96 | the results recorded so far are keyed by the dates walked, each holding its rolling count |
| AudienceMetrics.RecordedCountsComplete | src/main/java/com/linter/eduanalitycs/service/AudienceMetricsService.java:86-97 | walking every key records the rolling count of every key |
| AudienceMetrics.EvictStale | src/main/java/com/linter/eduanalitycs/service/AudienceMetricsService.java:88-91 | the inner loop leaves exactly the dates within `days - 1` of the new date in the queue, with the matching running set |
| AudienceMetrics.SlideWindow | src/main/java/com/linter/eduanalitycs/service/AudienceMetricsService.java:86-96 | one outer iteration keeps the queue invariant, and the running set's size is the date's rolling count |
| AudienceMetrics.CalculateRollingMetric | src/main/java/com/linter/eduanalitycs/service/AudienceMetricsService.java:78-99 | the result maps every key to its rolling count |
| AudienceMetrics.WindowIds | src/main/java/com/linter/eduanalitycs/service/AudienceMetricsService.java:83-96 | the running set when the queue spans a range of dates: `WindowIdsBetween` and `WindowIdsDisjoint` relate it to the true union |
| AudienceMetrics.RollingCounts | src/main/java/com/linter/eduanalitycs/service/AudienceMetricsService.java:78-99 | the rolling count of every key: `RollingAtLeastDaily` and `RollingDisjoint` prove its bounds |
| AudienceMetrics.WindowIdsBetween | src/main/java/com/linter/eduanalitycs/service/AudienceMetricsService.java:83-96 | the running set holds the day's own ids and nothing outside the true union of its window |
| AudienceMetrics.RollingAtLeastDaily | src/main/java/com/linter/eduanalitycs/service/AudienceMetricsService.java:88-96 | WAU and MAU are at least DAU and at most the number of distinct ids of the window |
| AudienceMetrics.WindowIdsDisjoint | src/main/java/com/linter/eduanalitycs/service/AudienceMetricsService.java:88-90 | with disjoint daily sets the running set is the true union of the window |
| AudienceMetrics.WindowIdsFresh | src/main/java/com/linter/eduanalitycs/service/AudienceMetricsService.java:88-90 | with no activity in the days before the window, the running set is the true union |
| AudienceMetrics.WindowIdsOnlyKey | src/main/java/com/linter/eduanalitycs/service/AudienceMetricsService.java:88-96 | when a date is alone in its window, the running set is its own set |
| AudienceMetrics.RollingDisjoint | src/main/java/com/linter/eduanalitycs/service/AudienceMetricsService.java:70-76 | with disjoint daily sets, WAU and MAU are the distinct ids of the trailing 7 and 30 days, and DAU <= WAU <= MAU |
| AudienceMetrics.MauBelowWauExample | src/main/java/com/linter/eduanalitycs/service/AudienceMetricsService.java:88-90 | ids {10}, {10}, {20} on days 1, 29 and 31 give MAU 1 and WAU 2 on day 31 |
| AudienceMetrics.WauExample | src/main/java/com/linter/eduanalitycs/service/AudienceMetricsService.java:78-99 | {1,2}, {2,3} and {4} on consecutive days give WAU 4 on the third day |
| AudienceMetrics.RollingSingleDate | src/main/java/com/linter/eduanalitycs/service/AudienceMetricsService.java:78-99 | a single date gives rolling counts equal to DAU; an empty map gives an empty result |
| AudienceMetrics.WauIsDauWhenKeysApart | src/main/java/com/linter/eduanalitycs/service/AudienceMetricsService.java:70-72 | keys a week apart make WAU equal DAU |
| AudienceMetrics.GetAudienceMetrics | src/main/java/com/linter/eduanalitycs/service/AudienceMetricsService.java:16-24 | the service method equals the composition of query, map, aggregation, DAU and rolling counts |
| AudienceMetrics.AudienceOfMeaning | src/main/java/com/linter/eduanalitycs/service/AudienceMetricsService.java:16-24 | the three maps share the active dates as keys; WAU and MAU are the true window counts; DAU <= WAU <= MAU; "week"/"month" make WAU equal DAU |
| AudienceMetrics.AudienceOf | src/main/java/com/linter/eduanalitycs/service/AudienceMetricsService.java:16-24 | the three maps of `getAudienceMetrics`: `AudienceOfMeaning` proves their keys and their order DAU <= WAU <= MAU |
| RetentionMetrics.RepeatBuyers | src/main/java/com/linter/eduanalitycs/service/RetentionMetricsService.java:33-39 | the repeat-buyer count never exceeds the buyers |
| RetentionMetrics.GetRetentionRate | src/main/java/com/linter/eduanalitycs/service/RetentionMetricsService.java:27-43 | the counting loop and division give the repeat-buyer share of users with an order before `end`; `start` plays no part |
| RetentionMetrics.RepeatBuyersAll | src/main/java/com/linter/eduanalitycs/service/RetentionMetricsService.java:33-39 | the count reaches the number of buyers exactly when all are repeat buyers |
| RetentionMetrics.RepeatBuyersNone | src/main/java/com/linter/eduanalitycs/service/RetentionMetricsService.java:33-39 | the count is zero exactly when no buyer is a repeat buyer |
| RetentionMetrics.Percentage | src/main/java/com/linter/eduanalitycs/service/RetentionMetricsService.java:40 | `n / t * 100` is in [0, 100], 100 exactly when n = t and 0 exactly when n = 0 |
| RetentionMetrics.RetentionRateMeaning | src/main/java/com/linter/eduanalitycs/service/RetentionMetricsService.java:27-43 | the rate is in [0, 100]; it is 0 when nobody ordered before `end`; otherwise it is 100 (0) exactly when every (no) such buyer has two or more orders |
| RetentionMetrics.RetentionRate | src/main/java/com/linter/eduanalitycs/service/RetentionMetricsService.java:27-43 | the repeat-buyer percentage: `RetentionRateMeaning` proves its range and end points |
| RetentionMetrics.LaterOrdersCount | src/main/java/com/linter/eduanalitycs/service/RetentionMetricsService.java:35 | an order after `end` still makes a repeat buyer, because `findByUser` is unbounded |
| RetentionMetrics.ConvertToLocalDate | src/main/java/com/linter/eduanalitycs/service/RetentionMetricsService.java:72-86 | exactly the four date classes decode; anything else throws naming its class; a timestamp decodes to its own day |
| RetentionMetrics.ConvertToDouble | src/main/java/com/linter/eduanalitycs/service/RetentionMetricsService.java:88-104 | null gives 0.0; exactly the five number classes decode, each to its value; anything else throws naming its class |
| RetentionMetrics.DecodeRowsSnoc | src/main/java/com/linter/eduanalitycs/service/RetentionMetricsService.java:57-65 | decoding one more row is one more loop iteration |
| RetentionMetrics.DecodeRowsFailureStays | src/main/java/com/linter/eduanalitycs/service/RetentionMetricsService.java:57-65 | once the loop throws, later rows change nothing |
| RetentionMetrics.DecodeTrend | src/main/java/com/linter/eduanalitycs/service/RetentionMetricsService.java:57-65 | the loop with `continue` and `put` computes the row decoding |
| RetentionMetrics.DecodeRows | src/main/java/com/linter/eduanalitycs/service/RetentionMetricsService.java:57-65 | the loop over the rows as a function: `DecodeRowsFailure`, `DecodeRowsKeys` and `DecodeRowsLastWins` prove what it yields |
| RetentionMetrics.DecodeRowsFailure | src/main/java/com/linter/eduanalitycs/service/RetentionMetricsService.java:58-64 | decoding fails exactly when some usable row has an unsupported date or rate class, with the first such row's error |
| RetentionMetrics.DecodeRowsKeys | src/main/java/com/linter/eduanalitycs/service/RetentionMetricsService.java:58-64 | the keys are exactly the dates of the usable rows; short or null rows are skipped |
| RetentionMetrics.DecodeRowsLastWins | src/main/java/com/linter/eduanalitycs/service/RetentionMetricsService.java:64 | a date holds the rate of the last row on it |
| RetentionMetrics.DecodeCohortRows | src/main/java/com/linter/eduanalitycs/service/RetentionMetricsService.java:57-65 | the cohort queries' rows always decode, to the cohort trend |
| RetentionMetrics.CohortTrendMeaning | src/main/java/com/linter/eduanalitycs/service/RetentionMetricsService.java:62-64 | the trend maps each cohort start to its percentage, in [0, 100], with no other key |
| RetentionMetrics.CohortTrend | src/main/java/com/linter/eduanalitycs/service/RetentionMetricsService.java:62-64 | the cohort starts mapped to their rates: `CohortTrendMeaning` proves its keys and values |
| RetentionMetrics.TrendRowsFor | src/main/java/com/linter/eduanalitycs/service/RetentionMetricsService.java:46-48 | the weekly rows for "week" or "day" ignoring case, the monthly rows otherwise: `RetentionTrendMeaning` proves the resulting keys |
| RetentionMetrics.GetRetentionTrend | src/main/java/com/linter/eduanalitycs/service/RetentionMetricsService.java:45-70 | the method picks the weekly rows for "week"/"day" in any case and the monthly rows otherwise, then runs the decoding loop |
| RetentionMetrics.RetentionTrendMeaning | src/main/java/com/linter/eduanalitycs/service/RetentionMetricsService.java:45-70 | the trend never fails; its keys are the cohort starts of the chosen truncation; each value is the cohort's rate, in [0, 100] |
| RetentionMetrics.RetentionTrend | src/main/java/com/linter/eduanalitycs/service/RetentionMetricsService.java:45-70 | the trend the service returns: `RetentionTrendMeaning` proves it never fails and gives the cohort rates |
| FinancialMetrics.RatioOrZeroMeaning | src/main/java/com/linter/eduanalitycs/service/FinancialMetricsService.java:24-26 | a zero count gives 0; otherwise the result is the HALF_UP quotient, exact on multiples, and within [0, amount] for a non-negative amount |
| FinancialMetrics.RatioOrZero | src/main/java/com/linter/eduanalitycs/service/FinancialMetricsService.java:24-26 | the shared `count > 0 ? divide(..) : ZERO`: `RatioOrZeroMeaning` proves it is the HALF_UP quotient or zero |
| FinancialMetrics.LtvOf | src/main/java/com/linter/eduanalitycs/service/FinancialMetricsService.java:20-27 | LTV throws exactly when there are users and the revenue is null |
| FinancialMetrics.GetLTVMeaning | src/main/java/com/linter/eduanalitycs/service/FinancialMetricsService.java:20-27 | LTV throws a null dereference exactly when there are users but no orders; it is 0 without users, otherwise the rounded average over all users, and non-negative for a valid store |
| FinancialMetrics.GetLTV | src/main/java/com/linter/eduanalitycs/service/FinancialMetricsService.java:20-27 | LTV over the whole tables: `GetLTVMeaning` proves when it fails and its value |
| FinancialMetrics.LtvExample | src/main/java/com/linter/eduanalitycs/service/FinancialMetricsService.java:24-26 | revenue 1000000 over 100 users gives 10000.00 |
| FinancialMetrics.PeriodCostsSign | src/main/java/com/linter/eduanalitycs/service/FinancialMetricsService.java:47-52 | the period cost is non-negative for an ordered period and negative once `end` is a whole day before `start` |
| FinancialMetrics.PeriodCosts | src/main/java/com/linter/eduanalitycs/service/FinancialMetricsService.java:47-52 | the budget prorated over whole days: `PeriodCostsSign` and `PeriodCostsJanuary` prove its sign and the 30-day value |
| FinancialMetrics.PeriodCostsJanuary | src/main/java/com/linter/eduanalitycs/service/FinancialMetricsService.java:47-52 | 1 January 00:00 to 31 January 23:59 is 30 whole days and costs 50000.00 |
| FinancialMetrics.GetCACMeaning | src/main/java/com/linter/eduanalitycs/service/FinancialMetricsService.java:29-36 | CAC is 0 when nobody registered in the period, and so for every reversed period; it is non-negative for an ordered period |
| FinancialMetrics.CacOf | src/main/java/com/linter/eduanalitycs/service/FinancialMetricsService.java:33-35 | the cost over the new users, or zero: `CacExamples` and `CacReversedExample` give its values |
| FinancialMetrics.GetCAC | src/main/java/com/linter/eduanalitycs/service/FinancialMetricsService.java:29-36 | CAC of a period: `GetCACMeaning` proves it is zero without registrations and never negative |
| FinancialMetrics.CacExamples | src/main/java/com/linter/eduanalitycs/service/FinancialMetricsService.java:29-36 | 30 days and 50 users give 1000.00; 15 days and 10 users give 2500.00 |
| FinancialMetrics.CacReversedExample | src/main/java/com/linter/eduanalitycs/service/FinancialMetricsService.java:33-35 | one new user over a reversed one-day range would give -1666.67 |
| FinancialMetrics.GetARPPUMeaning | src/main/java/com/linter/eduanalitycs/service/FinancialMetricsService.java:38-45 | ARPPU is 0 with no order in range; for a valid store it lies in [0, period revenue] |
| FinancialMetrics.ArppuOf | src/main/java/com/linter/eduanalitycs/service/FinancialMetricsService.java:42-44 | the revenue over the paying users, or zero: `ArppuExample` gives a value |
| FinancialMetrics.GetARPPU | src/main/java/com/linter/eduanalitycs/service/FinancialMetricsService.java:38-45 | ARPPU of a period: `GetARPPUMeaning` proves its bounds |
| FinancialMetrics.ArppuExample | src/main/java/com/linter/eduanalitycs/service/FinancialMetricsService.java:42-44 | 500000 over 100 paying users gives 5000.00 |
| ProductMetrics.MapToProductPerformanceDto | src/main/java/com/linter/eduanalitycs/service/ProductMetricsService.java:31-38 | the mapper succeeds exactly on a row whose four cells fit their casts, and then copies cells 0 to 3 unchanged |
| ProductMetrics.MapToProductPerformanceDtoFailure | src/main/java/com/linter/eduanalitycs/service/ProductMetricsService.java:32-35 | a failing row throws at its first unfit cell: an index error when the row is short, a cast error naming the class otherwise |
| ProductMetrics.MapIgnoresExtraCells | src/main/java/com/linter/eduanalitycs/service/ProductMetricsService.java:32-35 | cells after the fourth are never read |
| ProductMetrics.MapProductRowValues | src/main/java/com/linter/eduanalitycs/service/ProductMetricsService.java:31-38 | round trip: the mapper reads back every field of a query row |
| ProductMetrics.MapRows | src/main/java/com/linter/eduanalitycs/service/ProductMetricsService.java:27-28 | a successful map keeps the length and maps each row in place |
| ProductMetrics.MapRowsFailure | src/main/java/com/linter/eduanalitycs/service/ProductMetricsService.java:27-28 | the stream fails exactly when some row is ill-typed, with the first such row's error |
| ProductMetrics.GetProductPerformanceMeaning | src/main/java/com/linter/eduanalitycs/service/ProductMetricsService.java:25-28 | the output has min(5, rows) records, the mapped prefix in order; it fails exactly on an ill-typed row among the first five; later rows are never read |
| ProductMetrics.GetProductPerformance | src/main/java/com/linter/eduanalitycs/service/ProductMetricsService.java:25-28 | `limit(5)` then the mapper: `GetProductPerformanceMeaning` proves its length, order and failures |
| ProductMetrics.GetProductPerformanceEmpty | src/main/java/com/linter/eduanalitycs/service/ProductMetricsService.java:20-28 | no rows give an empty list |
| ProductMetrics.ProductPerformanceOfQuery | src/main/java/com/linter/eduanalitycs/service/ProductMetricsService.java:20-28 | on the query's rows it never fails and gives the five best sellers, best first, each course's count and revenue carried over |
| MetricsFacade.GetDashboardStatsMeaning | src/main/java/com/linter/eduanalitycs/service/MetricsFacadeService.java:26-33 | userCount is zero exactly when nobody was active; courseCount ignores the period; orderCount and revenue equal the product rows' totals, and the revenue is non-negative |
| MetricsFacade.GetDashboardStats | src/main/java/com/linter/eduanalitycs/service/MetricsFacadeService.java:26-33 | the four counters of the period: `GetDashboardStatsMeaning` proves what each counts and that they agree with the product rows |
| MetricsFacade.SpanDays | src/main/java/com/linter/eduanalitycs/service/MetricsFacadeService.java:36 | the calendar days between the two dates: `SpanDaysIgnoresTimeOfDay` proves the time of day is ignored |
| MetricsFacade.Granularity | src/main/java/com/linter/eduanalitycs/service/MetricsFacadeService.java:37 | the granularity word of a span: `GranularityMeaning` proves the three ranges |
| MetricsFacade.CompleteMetricsOf | src/main/java/com/linter/eduanalitycs/service/MetricsFacadeService.java:35-48 | the complete response, failing with the first failing call: the `CompleteMetrics` lemmas prove when it fails and what it holds |
| MetricsFacade.SpanDaysIgnoresTimeOfDay | src/main/java/com/linter/eduanalitycs/service/MetricsFacadeService.java:36 | the span counts calendar dates, ignoring the time of day at both ends |
| MetricsFacade.SpanDaysAcrossMidnight | src/main/java/com/linter/eduanalitycs/service/MetricsFacadeService.java:36 | two minutes across midnight span one calendar day but zero whole days |
| MetricsFacade.GranularityMeaning | src/main/java/com/linter/eduanalitycs/service/MetricsFacadeService.java:37 | "month" iff days > 180, "week" iff 30 <= days <= 180, "day" iff days < 30; the trend groups by month exactly for "month" |
| MetricsFacade.GranularityExamples | src/main/java/com/linter/eduanalitycs/service/MetricsFacadeService.java:37 | 10 and 29 give day, 30 and 180 give week, 181 gives month |
| MetricsFacade.GetCompleteMetrics | src/main/java/com/linter/eduanalitycs/service/MetricsFacadeService.java:35-48 | the method evaluates the builder's calls in order with one granularity, and the first exception ends the call |
| MetricsFacade.CompleteMetricsFailure | src/main/java/com/linter/eduanalitycs/service/MetricsFacadeService.java:42 | the response fails exactly when there are users but no orders, with a null dereference |
| MetricsFacade.CompleteMetricsAudience | src/main/java/com/linter/eduanalitycs/service/MetricsFacadeService.java:37-40 | a span of 30 days or more makes WAU equal DAU in the response |
| MetricsFacade.CompleteMetricsTrend | src/main/java/com/linter/eduanalitycs/service/MetricsFacadeService.java:37-46 | the trend's keys are the week cohorts up to 180 days of span and the month cohorts beyond |
| MetricsFacade.CompleteMetricsFigures | src/main/java/com/linter/eduanalitycs/service/MetricsFacadeService.java:41-45 | for a valid store the rate is in [0, 100], LTV is non-negative, and the products are the top five query rows |
| Dashboard.CalculatePeriodMeaning | src/main/java/com/linter/eduanalitycs/controller/DashboardController.java:50-60 | both bounds are midnights; the range holds today and is N + 1 days long; its calendar span is N + 1; its last second falls on today |
| Dashboard.CalculatePeriod | src/main/java/com/linter/eduanalitycs/controller/DashboardController.java:50-60 | `calculatePeriod` with today as a parameter: `CalculatePeriodMeaning` proves its bounds and length |
| Dashboard.LookbackDays | src/main/java/com/linter/eduanalitycs/controller/DashboardController.java:53-58 | the `switch` on the lower-cased keyword: `LookbackDaysMeaning` proves which strings give 7, 30, 90 and 365 |
| Dashboard.KeywordDays | src/main/java/com/linter/eduanalitycs/controller/DashboardController.java:53-58 | the arms of the `switch`: `KeywordDaysMeaning` proves each special value belongs to exactly one keyword |
| Dashboard.KeywordDaysMeaning | src/main/java/com/linter/eduanalitycs/controller/DashboardController.java:53-58 | the look-back is 7, 30, 90 or 365, each special value exactly for its keyword |
| Dashboard.LookbackDaysMeaning | src/main/java/com/linter/eduanalitycs/controller/DashboardController.java:53-58 | keywords match ignoring case; any other string, the default included, looks back 30 days |
| Dashboard.PeriodGranularity | src/main/java/com/linter/eduanalitycs/controller/DashboardController.java:50-60 | the granularity of a period depends only on its look-back |
| Dashboard.KeywordGranularities | src/main/java/com/linter/eduanalitycs/controller/DashboardController.java:23 | the four periods give day, week, week and month granularity |

## Left out

- The HTTP handlers of `DashboardController`, the `Model` attributes and
  `ResponseEntity`: presentation only.
- The front-end JavaScript and `DataInitializer`'s random demo data: no
  deterministic behaviour to state.
- Logging calls and Lombok-generated accessors and builders.
- JPA and database mechanics: transactions, entity identity, and how the
  SQL is executed. Each query is a function over the in-memory tables.
- `Order.java` and `Course.java` are not part of this model. Their fields
  are taken from the queries that read them.
- The system clock: `LocalDateTime.now()` in `calculatePeriod` is the
  parameter `today`.
- The system time zone: `java.util.Date` to `LocalDate` is the parameter
  `zone`.
- The Gregorian month: `withDayOfMonth(1)` and `DATE_TRUNC('month', ..)`
  are the parameter `monthStart`, with only the properties
  `IsMonthStart` states.
- Common.ToLower: lowers 'A' to 'Z' and the KELVIN SIGN, the characters
  whose Java lower case is an ASCII letter other than 'i'. Other non-ASCII
  case mappings are not modelled, such as 'À' to 'à' or 'İ' to "i̇". None of
  them can turn a string into one of the engine's keywords, which contain
  no 'i'.
- Common.EqualsIgnoreCaseLowerKeyword: `equalsIgnoreCase` is modelled as
  equality after lower-casing. Java also compares upper cases, which
  matches 'ſ' with 's' and 'ı' with 'i'. The engine compares only with
  "day" and "week", which contain neither letter.
- AudienceMetrics.MapDailyActiveUsers: takes typed `(date, id)` rows, so the
  casts `(java.sql.Date) result[0]` and `(Number) result[1]` and their
  `ClassCastException` are not modelled. The query always yields a date
  and a `Long`.
- IEEE `double` rounding: the rates are exact reals.
- RetentionMetrics.RetentionRateMeaning: states the exact quotient rather
  than its `double` rounding.
- 64-bit `long` and `int` overflow is not modelled. Counts and amounts are
  unbounded integers.
- Hash-map iteration order: the re-bucketing loop is proved for any order
  of the entries.
- Ties in `ORDER BY COUNT(o.id) DESC`: the database leaves their order
  open, and the model keeps them in course-table order.
- OrderRepository.SortBySalesDesc: fixes one order for equal counts,
  where the database may return any.
- Repository methods the engine does not call:
  - `findByOrderDateBetween` and `findByUserAndOrderDateBefore` (unused);
  - `findUsersWithOrdersInPeriod` (unused).
- The `start` argument of `getRetentionRate` is accepted and ignored, as
  in the code.
