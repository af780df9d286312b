/** `AudienceMetricsService`: daily active users grouped by date, optionally
    re-bucketed by week or month, and the DAU, WAU and MAU maps computed from
    them. The rolling counts keep one running id set and a queue of dates, and
    evict a whole day's ids when that day leaves the window; the model states
    exactly which ids that leaves in the set (`WindowIds`), which is the true
    union of the window only when no id is active on two different dates. */
module AudienceMetrics {
  import opened Common
  import opened Calendar
  import opened Entities
  import opened UserRepository

  /** Active user ids by date (`Map<LocalDate, Set<Long>>`). */
  type DailyIds = map<Day, set<UserId>>

  // ---- mapDailyActiveUsers ----

  function RowDates(rows: seq<ActivityRow>): set<Day>
  {
    set r | r in rows :: r.date
  }

  function IdsOn(rows: seq<ActivityRow>, d: Day): set<UserId>
  {
    set r | r in rows && r.date == d :: r.userId
  }

  /** Each row's id is filed under the row's date. */
  function DailyMap(rows: seq<ActivityRow>): DailyIds
  {
    map d | d in RowDates(rows) :: IdsOn(rows, d)
  }

  /** `computeIfAbsent(k, new HashSet).addAll(ids)` on a map of id sets. */
  function AddIds(m: DailyIds, k: Day, ids: set<UserId>): DailyIds
  {
    if k in m then m[k := m[k] + ids] else m[k := ids]
  }

  lemma DailyMapSnoc(rows: seq<ActivityRow>, r: ActivityRow)
    ensures DailyMap(rows + [r]) == AddIds(DailyMap(rows), r.date, {r.userId})
  {
    var rows' := rows + [r];
    var m, m' := DailyMap(rows), DailyMap(rows');
    var e := AddIds(m, r.date, {r.userId});
    assert forall x :: x in rows' <==> x in rows || x == r;
    assert RowDates(rows') == RowDates(rows) + {r.date};
    assert m'.Keys == e.Keys;
    forall d | d in m'
      ensures m'[d] == e[d]
    {
      if d == r.date {
        forall u | u in IdsOn(rows', d)
          ensures u in IdsOn(rows, d) + {r.userId}
        {
          var x :| x in rows' && x.date == d && x.userId == u;
          if x != r { assert u in IdsOn(rows, d); }
        }
        if d !in m {
          assert IdsOn(rows, d) == {};
        }
      } else {
        forall u | u in IdsOn(rows', d)
          ensures u in IdsOn(rows, d)
        {
          var x :| x in rows' && x.date == d && x.userId == u;
          assert x in rows;
        }
      }
    }
  }

  /** `mapDailyActiveUsers`: `computeIfAbsent(date, new HashSet).add(userId)` per row. */
  method MapDailyActiveUsers(rows: seq<ActivityRow>) returns (m: DailyIds)
    ensures m == DailyMap(rows)
  {
    m := map[];
    var i := 0;
    while i < |rows|
      invariant 0 <= i <= |rows|
      invariant m == DailyMap(rows[..i])
    {
      var r := rows[i];
      DailyMapSnoc(rows[..i], r);
      assert rows[..i + 1] == rows[..i] + [r];
      if r.date in m {
        m := m[r.date := m[r.date] + {r.userId}];
      } else {
        m := m[r.date := {r.userId}];
      }
      i := i + 1;
    }
    assert rows[..i] == rows;
  }

  /** A date is a key exactly when some row has it, no set is empty, and an id
      is filed under a date exactly when that row exists. */
  lemma DailyMapMeaning(rows: seq<ActivityRow>)
    ensures forall d :: d in DailyMap(rows) <==> exists r :: r in rows && r.date == d
    ensures forall d :: d in DailyMap(rows) ==> DailyMap(rows)[d] != {}
    ensures forall d, u :: d in DailyMap(rows) && u in DailyMap(rows)[d] <==> ActivityRow(d, u) in rows
  {
    var m := DailyMap(rows);
    forall d | d in m
      ensures m[d] != {}
    {
      var r :| r in rows && r.date == d;
      assert r.userId in IdsOn(rows, d);
    }
    forall d, u | ActivityRow(d, u) in rows
      ensures d in m && u in m[d]
    {
      var r := ActivityRow(d, u);
      assert r.date in RowDates(rows);
      assert u in IdsOn(rows, d);
    }
  }

  /** No id is active on two different dates. */
  predicate DisjointDays(daily: DailyIds)
  {
    forall d, e, u :: d in daily && e in daily && u in daily[d] && u in daily[e] ==> d == e
  }

  /** The rows of `getDailyActiveUsers` over a table with unique ids give
      pairwise disjoint daily sets. */
  lemma DailyActiveUsersDisjoint(users: seq<User>, start: Instant, end: Instant)
    requires UniqueUserIds(users)
    ensures DisjointDays(DailyMap(DailyActiveUsers(users, start, end)))
  {
    var rows := DailyActiveUsers(users, start, end);
    DailyMapMeaning(rows);
    DailyActiveUsersOneDatePerUser(users, start, end);
    var m := DailyMap(rows);
    forall d, e, u | d in m && e in m && u in m[d] && u in m[e]
      ensures d == e
    {
      assert ActivityRow(d, u) in rows && ActivityRow(e, u) in rows;
    }
  }

  // ---- aggregateDailyData ----

  function SameDay(d: Day): Day { d }

  /** The bucket of a date: the Monday of its ISO week for "week", the first of
      its month for "month", the date itself for any other string. */
  function BucketOf(aggregation: string, monthStart: Day -> Day): Day -> Day
  {
    var a := ToLower(aggregation);
    if a == "week" then WeekStart else if a == "month" then monthStart else SameDay
  }

  function BucketKeys(keys: set<Day>, bucket: Day -> Day): set<Day>
  {
    set d | d in keys :: bucket(d)
  }

  /** The union of the sets of the given dates that fall into bucket `k`. */
  function BucketIds(daily: DailyIds, keys: set<Day>, bucket: Day -> Day, k: Day): set<UserId>
    requires keys <= daily.Keys
  {
    set d, u | d in keys && bucket(d) == k && u in daily[d] :: u
  }

  /** The buckets of some of the keys, each holding the union of its dates' sets. */
  function RebucketOver(daily: DailyIds, keys: set<Day>, bucket: Day -> Day): DailyIds
    requires keys <= daily.Keys
  {
    map k | k in BucketKeys(keys, bucket) :: BucketIds(daily, keys, bucket, k)
  }

  function Rebucket(daily: DailyIds, bucket: Day -> Day): DailyIds
  {
    RebucketOver(daily, daily.Keys, bucket)
  }

  /** What `aggregateDailyData` returns. */
  function Aggregate(daily: DailyIds, aggregation: string, monthStart: Day -> Day): DailyIds
  {
    if EqualsIgnoreCase("day", aggregation) then daily
    else Rebucket(daily, BucketOf(aggregation, monthStart))
  }

  lemma RebucketOverStep(daily: DailyIds, keys: set<Day>, d: Day, bucket: Day -> Day)
    requires keys <= daily.Keys && d in daily && d !in keys
    ensures RebucketOver(daily, keys + {d}, bucket) == AddIds(RebucketOver(daily, keys, bucket), bucket(d), daily[d])
  {
    var keys' := keys + {d};
    var k := bucket(d);
    var m, m' := RebucketOver(daily, keys, bucket), RebucketOver(daily, keys', bucket);
    var e := AddIds(m, k, daily[d]);
    assert BucketKeys(keys', bucket) == BucketKeys(keys, bucket) + {k};
    assert m'.Keys == e.Keys;
    forall b | b in m'
      ensures m'[b] == e[b]
    {
      var before := BucketIds(daily, keys, bucket, b);
      var after := BucketIds(daily, keys', bucket, b);
      forall u | u in after
        ensures u in before || (b == k && u in daily[d])
      {
        var x :| x in keys' && bucket(x) == b && u in daily[x];
        if x != d { assert u in before; }
      }
      if b == k {
        forall u | u in daily[d]
          ensures u in after
        {
          assert d in keys' && bucket(d) == b;
        }
        if b !in m {
          assert before == {};
        }
      }
    }
  }

  /** `agg.computeIfAbsent(aggKey, k -> new HashSet<>()).addAll(ids)`: the key
      is present afterwards, its set gains `ids` (starting from the empty set
      when it was absent), and every other entry is untouched. */
  method AddAll(agg: DailyIds, aggKey: Day, ids: set<UserId>) returns (agg': DailyIds)
    ensures agg'.Keys == agg.Keys + {aggKey}
    ensures agg'[aggKey] == (if aggKey in agg then agg[aggKey] else {}) + ids
    ensures forall k :: k in agg && k != aggKey ==> agg'[k] == agg[k]
  {
    if aggKey in agg {
      agg' := agg[aggKey := agg[aggKey] + ids];
    } else {
      agg' := agg[aggKey := ids];
    }
  }

  /** `aggregateDailyData`: "day" in any case returns the map itself; any other
      string files each date's set under its bucket. */
  method AggregateDailyData(daily: DailyIds, aggregation: string, monthStart: Day -> Day) returns (agg: DailyIds)
    ensures agg == Aggregate(daily, aggregation, monthStart)
  {
    if EqualsIgnoreCase("day", aggregation) {
      return daily;
    }
    agg := RebucketEntries(daily, BucketOf(aggregation, monthStart));
  }

  /** The loop over the entries of the daily map, in any order, filing each
      date's set under its bucket with
      `computeIfAbsent(aggKey, new HashSet).addAll(ids)`. */
  method RebucketEntries(daily: DailyIds, bucket: Day -> Day) returns (agg: DailyIds)
    ensures agg == Rebucket(daily, bucket)
  {
    agg := map[];
    var remaining := daily.Keys;
    ghost var done: set<Day> := {};
    assert RebucketOver(daily, {}, bucket) == map[];
    while remaining != {}
      invariant done <= daily.Keys && remaining == daily.Keys - done
      invariant agg == RebucketOver(daily, done, bucket)
      decreases remaining
    {
      NonEmptyHasMember(remaining);
      var date :| date in remaining;
      var aggKey := bucket(date);
      RebucketOverStep(daily, done, date, bucket);
      var before := agg;
      agg := AddAll(agg, aggKey, daily[date]);
      assert agg == AddIds(before, aggKey, daily[date]) by {
        var m := AddIds(before, aggKey, daily[date]);
        assert agg.Keys == m.Keys;
        assert forall k :: k in agg ==> agg[k] == m[k];
      }
      remaining := remaining - {date};
      done := done + {date};
    }
    assert done == daily.Keys;
  }

  /** Every id that is active on some date of a map. */
  function AllIds(daily: DailyIds): set<UserId>
  {
    set d, u | d in daily && u in daily[d] :: u
  }

  /** Re-bucketing keeps every id and adds none: each bucket is the union of
      the sets of the dates that fall into it. */
  lemma RebucketMeaning(daily: DailyIds, bucket: Day -> Day)
    ensures forall k :: k in Rebucket(daily, bucket) <==> exists d :: d in daily && bucket(d) == k
    ensures forall k, u ::
      (k in Rebucket(daily, bucket) && u in Rebucket(daily, bucket)[k])
      <==> exists d :: d in daily && bucket(d) == k && u in daily[d]
    ensures AllIds(Rebucket(daily, bucket)) == AllIds(daily)
  {
    var m := Rebucket(daily, bucket);
    forall u | u in AllIds(daily)
      ensures u in AllIds(m)
    {
      var d :| d in daily && u in daily[d];
      assert bucket(d) in BucketKeys(daily.Keys, bucket);
      assert u in BucketIds(daily, daily.Keys, bucket, bucket(d));
      assert bucket(d) in m && u in m[bucket(d)];
    }
    forall k, u | exists d :: d in daily && bucket(d) == k && u in daily[d]
      ensures k in m && u in m[k]
    {
      var d :| d in daily && bucket(d) == k && u in daily[d];
      assert k in BucketKeys(daily.Keys, bucket);
      assert u in BucketIds(daily, daily.Keys, bucket, k);
    }
  }

  /** Dates that are their own bucket (the `default` branch) come back unchanged. */
  lemma RebucketSameDay(daily: DailyIds)
    ensures Rebucket(daily, SameDay) == daily
  {
    var m := Rebucket(daily, SameDay);
    forall d | d in daily
      ensures d in BucketKeys(daily.Keys, SameDay)
    {
      assert SameDay(d) == d;
    }
    assert m.Keys == daily.Keys;
    forall d | d in m
      ensures m[d] == daily[d]
    {
      forall u | u in daily[d]
        ensures u in BucketIds(daily, daily.Keys, SameDay, d)
      {
        assert SameDay(d) == d;
      }
    }
  }

  /** Re-bucketing by a truncation a second time changes nothing. */
  lemma RebucketIdempotent(daily: DailyIds, bucket: Day -> Day)
    requires forall d :: bucket(bucket(d)) == bucket(d)
    ensures Rebucket(Rebucket(daily, bucket), bucket) == Rebucket(daily, bucket)
  {
    var m := Rebucket(daily, bucket);
    var m2 := Rebucket(m, bucket);
    RebucketMeaning(daily, bucket);
    RebucketMeaning(m, bucket);
    assert m2.Keys == m.Keys;
    forall k | k in m2
      ensures m2[k] == m[k]
    {
      forall u | u in m2[k]
        ensures u in m[k]
      {
        var b :| b in m && bucket(b) == k && u in m[b];
        var d :| d in daily && bucket(d) == b && u in daily[d];
      }
      forall u | u in m[k]
        ensures u in m2[k]
      {
        var d :| d in daily && bucket(d) == k && u in daily[d];
        assert bucket(k) == k;
      }
    }
  }

  /** Re-bucketing keeps every id on one date at most. */
  lemma RebucketKeepsDisjoint(daily: DailyIds, bucket: Day -> Day)
    requires DisjointDays(daily)
    ensures DisjointDays(Rebucket(daily, bucket))
  {
    RebucketMeaning(daily, bucket);
  }

  /** Different keys at least `gap` days apart. */
  predicate KeysApart(daily: DailyIds, gap: int)
  {
    forall d, e :: d in daily && e in daily && d < e ==> d + gap <= e
  }

  /** Week and month buckets leave keys at least a week apart. */
  lemma RebucketCoarseKeysApart(daily: DailyIds, bucket: Day -> Day)
    requires IsCoarseTruncation(bucket)
    ensures KeysApart(Rebucket(daily, bucket), 7)
  {
    RebucketMeaning(daily, bucket);
  }

  /** The aggregation "week" or "month" (in any case) gives keys a week or
      more apart; "day" and any other string keep the map as it is. */
  lemma AggregateMeaning(daily: DailyIds, aggregation: string, monthStart: Day -> Day)
    requires IsMonthStart(monthStart)
    ensures ToLower(aggregation) == "week" || ToLower(aggregation) == "month"
      ==> KeysApart(Aggregate(daily, aggregation, monthStart), 7)
    ensures ToLower(aggregation) != "week" && ToLower(aggregation) != "month"
      ==> Aggregate(daily, aggregation, monthStart) == daily
    ensures AllIds(Aggregate(daily, aggregation, monthStart)) == AllIds(daily)
  {
    var a := ToLower(aggregation);
    EqualsIgnoreCaseLowerKeyword("day", aggregation);
    var bucket := BucketOf(aggregation, monthStart);
    RebucketMeaning(daily, bucket);
    if a == "week" {
      WeekStartIsCoarse();
      RebucketCoarseKeysApart(daily, WeekStart);
    } else if a == "month" {
      MonthStartIsCoarse(monthStart);
      RebucketCoarseKeysApart(daily, monthStart);
    } else {
      RebucketSameDay(daily);
    }
  }

  // ---- calculateDAU ----

  /** The number of ids per date, with no entry for dates absent from the map. */
  function Dau(daily: DailyIds): map<Day, int>
  {
    map d | d in daily :: |daily[d]|
  }

  /** `calculateDAU`: `dauMap.put(date, users.size())` for each entry. */
  method CalculateDau(daily: DailyIds) returns (dau: map<Day, int>)
    ensures dau.Keys == daily.Keys
    ensures forall d :: d in dau ==> dau[d] == |daily[d]|
    ensures dau == Dau(daily)
  {
    dau := map[];
    var remaining := daily.Keys;
    while remaining != {}
      invariant remaining <= daily.Keys
      invariant dau.Keys == daily.Keys - remaining
      invariant forall d :: d in dau ==> dau[d] == |daily[d]|
      decreases remaining
    {
      NonEmptyHasMember(remaining);
      var date :| date in remaining;
      dau := dau[date := |daily[date]|];
      remaining := remaining - {date};
    }
    assert dau.Keys == Dau(daily).Keys;
    assert forall d :: d in dau ==> dau[d] == Dau(daily)[d];
  }

  // ---- calculateRollingMetric ----

  /** An id of day `L` was already removed when an earlier day `e` holding it
      left the queue: `e` was still queued when `L` was added (`e` is at most
      `days - 1` before `L`), and it has left the queue by now (`e < lo`). */
  ghost predicate EvictedBefore(daily: DailyIds, days: int, u: UserId, L: Day, lo: Day)
  {
    exists e :: e in daily && L - days + 1 <= e < lo && u in daily[e]
  }

  /** The running id set when the queue holds the dates in `[lo, hi]`: the ids
      of those dates except those removed by the eviction of an earlier date. */
  ghost function WindowIds(daily: DailyIds, days: int, lo: Day, hi: Day): set<UserId>
  {
    set L, u | L in daily && lo <= L <= hi && u in daily[L] && !EvictedBefore(daily, days, u, L, lo) :: u
  }

  /** The true union of the dates in `[lo, hi]`. */
  function ActiveIn(daily: DailyIds, lo: Day, hi: Day): set<UserId>
  {
    set L, u | L in daily && lo <= L <= hi && u in daily[L] :: u
  }

  /** The size of the running set once date `d` is added: its window is
      `[d - (days - 1), d]`, both ends included. */
  ghost function RollingCount(daily: DailyIds, days: int, d: Day): int
  {
    |WindowIds(daily, days, d - days + 1, d)|
  }

  /** What `calculateRollingMetric(daily, days)` returns. */
  ghost function RollingCounts(daily: DailyIds, days: int): map<Day, int>
  {
    map d | d in daily :: RollingCount(daily, days, d)
  }

  /** Removing the ids of the front date `lo` moves the window start to the
      next date. */
  lemma EvictStep(daily: DailyIds, days: int, lo: Day, next: Day, hi: Day)
    requires lo in daily && lo < next && hi - days + 1 <= lo
    requires forall k :: k in daily && lo < k ==> next <= k
    ensures WindowIds(daily, days, lo, hi) - daily[lo] == WindowIds(daily, days, next, hi)
  {
    var a := WindowIds(daily, days, lo, hi) - daily[lo];
    var b := WindowIds(daily, days, next, hi);
    forall u | u in a
      ensures u in b
    {
      var L :| L in daily && lo <= L <= hi && u in daily[L] && !EvictedBefore(daily, days, u, L, lo);
      assert !EvictedBefore(daily, days, u, L, next);
    }
    forall u | u in b
      ensures u in a
    {
      var L :| L in daily && next <= L <= hi && u in daily[L] && !EvictedBefore(daily, days, u, L, next);
      assert u !in daily[lo];
      assert !EvictedBefore(daily, days, u, L, lo);
    }
  }

  /** Adding the ids of a new last date extends the window to it, provided the
      dates before the window start are more than `days - 1` days before it. */
  lemma AddStep(daily: DailyIds, days: int, lo: Day, hi: Day, d: Day)
    requires d in daily && hi < d && lo <= d
    requires forall k :: k in daily && hi < k ==> d <= k
    requires forall k :: k in daily && k < lo ==> k < d - days + 1
    ensures WindowIds(daily, days, lo, hi) + daily[d] == WindowIds(daily, days, lo, d)
  {
    var a := WindowIds(daily, days, lo, hi) + daily[d];
    var b := WindowIds(daily, days, lo, d);
    forall u | u in daily[d]
      ensures u in b
    {
      assert !EvictedBefore(daily, days, u, d, lo);
    }
    forall u | u in b
      ensures u in a
    {
      var L :| L in daily && lo <= L <= d && u in daily[L] && !EvictedBefore(daily, days, u, L, lo);
      if L != d {
        assert u in WindowIds(daily, days, lo, hi);
      }
    }
  }

  /** The window start may be moved back over dates that are not keys. */
  lemma WindowIdsLowerBound(daily: DailyIds, days: int, lo0: Day, lo: Day, hi: Day)
    requires lo0 <= lo
    requires forall k :: k in daily && lo0 <= k ==> lo <= k
    ensures WindowIds(daily, days, lo0, hi) == WindowIds(daily, days, lo, hi)
  {
    var a := WindowIds(daily, days, lo0, hi);
    var b := WindowIds(daily, days, lo, hi);
    forall u | u in a
      ensures u in b
    {
      var L :| L in daily && lo0 <= L <= hi && u in daily[L] && !EvictedBefore(daily, days, u, L, lo0);
      assert !EvictedBefore(daily, days, u, L, lo);
    }
    forall u | u in b
      ensures u in a
    {
      var L :| L in daily && lo <= L <= hi && u in daily[L] && !EvictedBefore(daily, days, u, L, lo);
      assert !EvictedBefore(daily, days, u, L, lo0);
    }
  }

  /** `dates` lists the keys in ascending order. */
  ghost predicate SortedKeys(daily: DailyIds, dates: seq<Day>)
  {
    StrictlyIncreasing(dates) && forall x :: x in dates <==> x in daily
  }

  /** `new ArrayList<>(map.keySet())` followed by `Collections.sort`. */
  function SortedDates(daily: DailyIds): (dates: seq<Day>)
    ensures SortedKeys(daily, dates)
  {
    SortedSeq(daily.Keys)
  }

  /** In the ascending list of keys, the neighbours of position `j` bound every
      other key. */
  lemma SortedNeighbours(daily: DailyIds, dates: seq<Day>, j: int)
    requires SortedKeys(daily, dates) && 0 <= j < |dates|
    ensures forall k :: k in daily && k < dates[j] ==> 0 < j && k <= dates[j - 1]
    ensures forall k :: k in daily && dates[j] < k ==> j + 1 < |dates| && dates[j + 1] <= k
  {
    forall k | k in daily && k < dates[j]
      ensures 0 < j && k <= dates[j - 1]
    {
      var b :| 0 <= b < |dates| && dates[b] == k;
      assert b < j;
    }
    forall k | k in daily && dates[j] < k
      ensures j + 1 < |dates| && dates[j + 1] <= k
    {
      var b :| 0 <= b < |dates| && dates[b] == k;
      assert j < b;
    }
  }

  /** The running set while the queue holds `dates[j..i]`. */
  ghost function Running(daily: DailyIds, days: int, dates: seq<Day>, j: int, i: int): set<UserId>
    requires 0 <= j <= i <= |dates|
  {
    if j < i then WindowIds(daily, days, dates[j], dates[i - 1]) else {}
  }

  /** One step of the eviction loop. */
  lemma EvictFront(daily: DailyIds, days: int, dates: seq<Day>, j: int, i: int)
    requires SortedKeys(daily, dates) && 0 <= j < i < |dates|
    requires dates[i - 1] - (days - 1) <= dates[j]
    ensures Running(daily, days, dates, j, i) - daily[dates[j]] == Running(daily, days, dates, j + 1, i)
  {
    SortedNeighbours(daily, dates, j);
    EvictStep(daily, days, dates[j], dates[j + 1], dates[i - 1]);
    if j + 1 == i {
      assert WindowIds(daily, days, dates[i], dates[i - 1]) == {};
    }
  }

  /** Queueing the next date once the stale dates are gone adds its ids to
      the running set. */
  lemma AddDate(daily: DailyIds, days: int, dates: seq<Day>, j: int, i: int)
    requires days >= 1 && SortedKeys(daily, dates) && 0 <= j <= i < |dates|
    requires j < i ==> dates[i] - (days - 1) <= dates[j]
    requires 0 < j ==> dates[j - 1] < dates[i] - (days - 1)
    ensures Running(daily, days, dates, j, i) + daily[dates[i]] == Running(daily, days, dates, j, i + 1)
  {
    var d := dates[i];
    KeyAt(daily, dates, i);
    SortedNeighbours(daily, dates, j);
    if j < i {
      SortedNeighbours(daily, dates, i - 1);
      AddStep(daily, days, dates[j], dates[i - 1], d);
    } else {
      assert WindowIds(daily, days, d, d - 1) == {};
      AddStep(daily, days, d, d - 1, d);
    }
  }

  /** The running set then has the size the rolling count states: no key
      lies between the window start and the first queued date. */
  lemma RunningIsWindow(daily: DailyIds, days: int, dates: seq<Day>, j: int, i: int)
    requires days >= 1 && SortedKeys(daily, dates) && 0 <= j <= i < |dates|
    requires j < i ==> dates[i] - (days - 1) <= dates[j]
    requires 0 < j ==> dates[j - 1] < dates[i] - (days - 1)
    ensures |Running(daily, days, dates, j, i + 1)| == RollingCount(daily, days, dates[i])
  {
    var d := dates[i];
    SortedNeighbours(daily, dates, j);
    WindowIdsLowerBound(daily, days, d - days + 1, dates[j], d);
  }

  lemma KeyAt(daily: DailyIds, dates: seq<Day>, i: int)
    requires SortedKeys(daily, dates) && 0 <= i < |dates|
    ensures dates[i] in daily
  {
    assert dates[i] in dates;
  }

  lemma SliceSnoc(dates: seq<Day>, j: int, i: int)
    requires 0 <= j <= i < |dates|
    ensures dates[j..i] + [dates[i]] == dates[j..i + 1]
    ensures dates[..i] + [dates[i]] == dates[..i + 1]
  {
  }

  lemma SliceTail(dates: seq<Day>, j: int, i: int)
    requires 0 <= j < i <= |dates|
    ensures dates[j..i][1..] == dates[j + 1..i] && dates[j..i][0] == dates[j]
  {
  }

  /** The results recorded once the first `i` dates have been walked. */
  ghost function RecordedCounts(daily: DailyIds, days: int, dates: seq<Day>, i: int): map<Day, int>
    requires 0 <= i <= |dates|
  {
    if i == 0 then map[]
    else RecordedCounts(daily, days, dates, i - 1)[dates[i - 1] := RollingCount(daily, days, dates[i - 1])]
  }

  lemma {:induction false} RecordedCountsMeaning(daily: DailyIds, days: int, dates: seq<Day>, i: int)
    requires 0 <= i <= |dates|
    ensures forall k :: k in RecordedCounts(daily, days, dates, i) <==> k in dates[..i]
    ensures forall k :: k in RecordedCounts(daily, days, dates, i) ==>
      RecordedCounts(daily, days, dates, i)[k] == RollingCount(daily, days, k)
  {
    if i > 0 {
      RecordedCountsMeaning(daily, days, dates, i - 1);
      assert dates[..i] == dates[..i - 1] + [dates[i - 1]];
    }
  }

  /** Walking every key records the rolling counts of all of them. */
  lemma RecordedCountsComplete(daily: DailyIds, days: int, dates: seq<Day>)
    requires SortedKeys(daily, dates)
    ensures RecordedCounts(daily, days, dates, |dates|) == RollingCounts(daily, days)
  {
    var rec := RecordedCounts(daily, days, dates, |dates|);
    var all := RollingCounts(daily, days);
    RecordedCountsMeaning(daily, days, dates, |dates|);
    assert dates[..|dates|] == dates;
    forall k | k in rec
      ensures k in all && rec[k] == all[k]
    {
      assert k in dates;
    }
    forall k | k in all
      ensures k in rec
    {
      assert k in dates;
    }
  }

  /** The inner loop of `calculateRollingMetric`: with the queue holding
      `dates[j0..i]`, drop from its front every date before
      `dates[i] - (days - 1)` and remove that date's ids from the running set. */
  method EvictStale(daily: DailyIds, days: int, dates: seq<Day>, i: int, ghost j0: int,
                    window0: seq<Day>, current0: set<UserId>)
    returns (ghost j: int, window: seq<Day>, current: set<UserId>)
    requires days >= 1 && SortedKeys(daily, dates) && 0 <= j0 <= i < |dates|
    requires window0 == dates[j0..i] && current0 == Running(daily, days, dates, j0, i)
    requires j0 < i ==> dates[i - 1] - (days - 1) <= dates[j0]
    requires 0 < j0 ==> dates[j0 - 1] < dates[i] - (days - 1)
    ensures j0 <= j <= i && window == dates[j..i] && current == Running(daily, days, dates, j, i)
    ensures j < i ==> dates[i] - (days - 1) <= dates[j]
    ensures 0 < j ==> dates[j - 1] < dates[i] - (days - 1)
  {
    j, window, current := j0, window0, current0;
    var date := dates[i];
    while window != [] && window[0] < date - (days - 1)
      invariant j0 <= j <= i && window == dates[j..i]
      invariant current == Running(daily, days, dates, j, i)
      invariant j < i ==> dates[i - 1] - (days - 1) <= dates[j]
      invariant 0 < j ==> dates[j - 1] < date - (days - 1)
      decreases |window|
    {
      var oldDate := window[0];
      SliceTail(dates, j, i);
      KeyAt(daily, dates, j);
      EvictFront(daily, days, dates, j, i);
      window := window[1..];
      current := current - daily[oldDate];
      j := j + 1;
    }
  }

  /** The state of `calculateRollingMetric` before date `dates[i]`: the queue
      holds `dates[j..i]`, the running set is the one for that window, the
      queued dates lie within `days - 1` of the last one and the dates already
      dropped lie before it. */
  ghost predicate Queued(daily: DailyIds, days: int, dates: seq<Day>, j: int, i: int,
                         window: seq<Day>, current: set<UserId>)
  {
    && 0 <= j <= i <= |dates|
    && window == dates[j..i]
    && current == Running(daily, days, dates, j, i)
    && (j < i ==> dates[i - 1] - (days - 1) <= dates[j])
    && (0 < j ==> j < i && dates[j - 1] < dates[i - 1] - (days - 1))
  }

  /** One iteration of `calculateRollingMetric`'s outer loop: evict the stale
      dates, then queue `dates[i]` and add its ids. The running set then has
      the rolling count of `dates[i]` as its size. */
  method SlideWindow(daily: DailyIds, days: int, dates: seq<Day>, i: int, ghost j0: int,
                     window0: seq<Day>, current0: set<UserId>)
    returns (ghost j: int, window: seq<Day>, current: set<UserId>)
    requires days >= 1 && SortedKeys(daily, dates) && i < |dates|
    requires Queued(daily, days, dates, j0, i, window0, current0)
    ensures Queued(daily, days, dates, j, i + 1, window, current)
    ensures |current| == RollingCount(daily, days, dates[i])
  {
    if 0 < j0 {
      assert dates[i - 1] < dates[i];
    }
    j, window, current := EvictStale(daily, days, dates, i, j0, window0, current0);
    KeyAt(daily, dates, i);
    AddDate(daily, days, dates, j, i);
    RunningIsWindow(daily, days, dates, j, i);
    SliceSnoc(dates, j, i);
    window := window + [dates[i]];
    current := current + daily[dates[i]];
  }

  /** `calculateRollingMetric`: walk the dates in ascending order, slide the
      window to each in turn and record the size of the running set under it. */
  method CalculateRollingMetric(daily: DailyIds, days: int) returns (result: map<Day, int>)
    requires days >= 1
    ensures result == RollingCounts(daily, days)
  {
    result := map[];
    var dates := SortedDates(daily);
    var currentWindow: set<UserId> := {};
    var dateWindow: seq<Day> := [];
    ghost var j := 0;
    for i := 0 to |dates|
      invariant Queued(daily, days, dates, j, i, dateWindow, currentWindow)
      invariant result == RecordedCounts(daily, days, dates, i)
    {
      var date := dates[i];
      j, dateWindow, currentWindow := SlideWindow(daily, days, dates, i, j, dateWindow, currentWindow);
      result := result[date := |currentWindow|];
    }
    RecordedCountsComplete(daily, days, dates);
  }

  // ---- What the rolling counts are ----

  lemma SubsetCardinality(a: set<UserId>, b: set<UserId>)
    requires a <= b
    ensures |a| <= |b|
  {
    assert b == a + (b - a);
  }

  /** The running set holds the day's own ids and nothing outside the true
      union of the window. */
  lemma WindowIdsBetween(daily: DailyIds, days: int, d: Day)
    requires d in daily && days >= 1
    ensures daily[d] <= WindowIds(daily, days, d - days + 1, d) <= ActiveIn(daily, d - days + 1, d)
  {
    forall u | u in daily[d]
      ensures u in WindowIds(daily, days, d - days + 1, d)
    {
      assert !EvictedBefore(daily, days, u, d, d - days + 1);
    }
  }

  /** WAU and MAU are never below DAU at the same date, and never above the
      number of distinct ids of the window. */
  lemma RollingAtLeastDaily(daily: DailyIds, days: int, d: Day)
    requires d in daily && days >= 1
    ensures |daily[d]| <= RollingCount(daily, days, d) <= |ActiveIn(daily, d - days + 1, d)|
  {
    WindowIdsBetween(daily, days, d);
    SubsetCardinality(daily[d], WindowIds(daily, days, d - days + 1, d));
    SubsetCardinality(WindowIds(daily, days, d - days + 1, d), ActiveIn(daily, d - days + 1, d));
  }

  /** When no id is active on two dates, nothing is removed early and the
      running set is the true union of the window. */
  lemma WindowIdsDisjoint(daily: DailyIds, days: int, lo: Day, hi: Day)
    requires DisjointDays(daily)
    ensures WindowIds(daily, days, lo, hi) == ActiveIn(daily, lo, hi)
  {
    forall u | u in ActiveIn(daily, lo, hi)
      ensures u in WindowIds(daily, days, lo, hi)
    {
      var L :| L in daily && lo <= L <= hi && u in daily[L];
      assert !EvictedBefore(daily, days, u, L, lo);
    }
  }

  /** When no date in the `days - 1` days before the window has activity,
      nothing was removed early either. */
  lemma WindowIdsFresh(daily: DailyIds, days: int, lo: Day, hi: Day)
    requires forall k :: k in daily && lo - days + 1 <= k ==> lo <= k
    ensures WindowIds(daily, days, lo, hi) == ActiveIn(daily, lo, hi)
  {
    forall u | u in ActiveIn(daily, lo, hi)
      ensures u in WindowIds(daily, days, lo, hi)
    {
      var L :| L in daily && lo <= L <= hi && u in daily[L];
      assert !EvictedBefore(daily, days, u, L, lo);
    }
  }

  /** When `d` is the only key of its window, the running set is `d`'s own set. */
  lemma WindowIdsOnlyKey(daily: DailyIds, days: int, d: Day)
    requires d in daily && days >= 1
    requires forall k :: k in daily && d - days + 1 <= k <= d ==> k == d
    ensures WindowIds(daily, days, d - days + 1, d) == daily[d]
  {
    forall u | u in daily[d]
      ensures u in WindowIds(daily, days, d - days + 1, d)
    {
      assert !EvictedBefore(daily, days, u, d, d - days + 1);
    }
  }

  /** With pairwise disjoint daily sets the rolling counts are the true numbers
      of distinct ids of the trailing 7 and 30 days, so DAU <= WAU <= MAU. */
  lemma RollingDisjoint(daily: DailyIds, d: Day)
    requires DisjointDays(daily) && d in daily
    ensures RollingCount(daily, 7, d) == |ActiveIn(daily, d - 6, d)|
    ensures RollingCount(daily, 30, d) == |ActiveIn(daily, d - 29, d)|
    ensures |daily[d]| <= RollingCount(daily, 7, d) <= RollingCount(daily, 30, d)
  {
    WindowIdsDisjoint(daily, 7, d - 6, d);
    WindowIdsDisjoint(daily, 30, d - 29, d);
    RollingAtLeastDaily(daily, 7, d);
    SubsetCardinality(ActiveIn(daily, d - 6, d), ActiveIn(daily, d - 29, d));
  }

  /** The ids 10 on days 1 and 29 and the id 20 on day 31: the eviction of day 1
      from the 30-day window also removes the 10 added on day 29, so MAU on
      day 31 is 1 while WAU is 2. */
  lemma MauBelowWauExample()
    ensures var daily := map[1 := {10}, 29 := {10}, 31 := {20}];
      RollingCounts(daily, 30)[31] == 1 && RollingCounts(daily, 7)[31] == 2
  {
    var daily: DailyIds := map[1 := {10}, 29 := {10}, 31 := {20}];
    var mau := WindowIds(daily, 30, 2, 31);
    assert EvictedBefore(daily, 30, 10, 29, 2) by {
      assert 1 in daily && 29 - 30 + 1 <= 1 < 2 && 10 in daily[1];
    }
    assert !EvictedBefore(daily, 30, 20, 31, 2);
    assert 20 in mau;
    assert mau == {20};
    WindowIdsFresh(daily, 7, 25, 31);
    var wau := ActiveIn(daily, 25, 31);
    assert 10 in daily[29] && 20 in daily[31];
    assert wau == {10, 20};
  }

  /** The sets {1, 2}, {2, 3} and {4} on three consecutive days give WAU 4 on
      the third day. */
  lemma WauExample()
    ensures RollingCounts(map[1 := {1, 2}, 2 := {2, 3}, 3 := {4}], 7)[3] == 4
  {
    var daily: DailyIds := map[1 := {1, 2}, 2 := {2, 3}, 3 := {4}];
    WindowIdsFresh(daily, 7, -3, 3);
    var w := ActiveIn(daily, -3, 3);
    assert 1 in daily[1] && 2 in daily[1] && 3 in daily[2] && 4 in daily[3];
    assert w == {1, 2, 3, 4};
  }

  /** With a single date, WAU and MAU equal DAU; an empty map gives empty maps. */
  lemma RollingSingleDate(d: Day, ids: set<UserId>, days: int)
    requires days >= 1
    ensures RollingCounts(map[d := ids], days) == Dau(map[d := ids])
    ensures RollingCounts(map[], days) == map[]
  {
    var daily: DailyIds := map[d := ids];
    WindowIdsOnlyKey(daily, days, d);
    assert RollingCounts(daily, days).Keys == Dau(daily).Keys;
  }

  /** When the keys are a week or more apart, as after "week" or "month"
      aggregation, the 7-day window at a key holds that key alone: WAU equals DAU. */
  lemma WauIsDauWhenKeysApart(daily: DailyIds)
    requires KeysApart(daily, 7)
    ensures RollingCounts(daily, 7) == Dau(daily)
  {
    forall d | d in daily
      ensures RollingCount(daily, 7, d) == |daily[d]|
    {
      WindowIdsOnlyKey(daily, 7, d);
    }
  }

  // ---- getAudienceMetrics ----

  /** The `"DAU"`, `"WAU"` and `"MAU"` entries of the result. */
  datatype AudienceMetrics = AudienceMetrics(dau: map<Day, int>, wau: map<Day, int>, mau: map<Day, int>)

  /** The date-to-ids map `getAudienceMetrics` computes its counts from. */
  function AggregatedDaily(users: seq<User>, start: Instant, end: Instant, aggregation: string, monthStart: Day -> Day): DailyIds
  {
    Aggregate(DailyMap(DailyActiveUsers(users, start, end)), aggregation, monthStart)
  }

  /** What `getAudienceMetrics` returns over the `users` table. */
  ghost function AudienceOf(users: seq<User>, start: Instant, end: Instant, aggregation: string, monthStart: Day -> Day): AudienceMetrics
  {
    var daily := AggregatedDaily(users, start, end, aggregation, monthStart);
    AudienceMetrics(Dau(daily), RollingCounts(daily, 7), RollingCounts(daily, 30))
  }

  /** `getAudienceMetrics`: query the daily rows, group them by date, aggregate,
      then compute DAU and the 7- and 30-day rolling counts. */
  method GetAudienceMetrics(users: seq<User>, start: Instant, end: Instant, aggregation: string, monthStart: Day -> Day)
    returns (metrics: AudienceMetrics)
    ensures metrics == AudienceOf(users, start, end, aggregation, monthStart)
  {
    var dailyActive := DailyActiveUsers(users, start, end);
    var dailyActiveMap := MapDailyActiveUsers(dailyActive);
    var aggregatedMap := AggregateDailyData(dailyActiveMap, aggregation, monthStart);
    var dau := CalculateDau(aggregatedMap);
    var wau := CalculateRollingMetric(aggregatedMap, 7);
    var mau := CalculateRollingMetric(aggregatedMap, 30);
    metrics := AudienceMetrics(dau, wau, mau);
  }

  /** Over a table with unique ids: the three maps share their keys (the dates
      with activity, with no zero entries for the gaps), WAU and MAU are the
      true numbers of distinct users of their windows, DAU <= WAU <= MAU, and
      "week" or "month" aggregation makes WAU equal DAU. */
  lemma AudienceOfMeaning(users: seq<User>, start: Instant, end: Instant, aggregation: string, monthStart: Day -> Day)
    requires UniqueUserIds(users) && IsMonthStart(monthStart)
    ensures var m := AudienceOf(users, start, end, aggregation, monthStart);
      var daily := AggregatedDaily(users, start, end, aggregation, monthStart);
      && m.dau.Keys == daily.Keys && m.wau.Keys == daily.Keys && m.mau.Keys == daily.Keys
      && (forall d :: d in daily ==> m.dau[d] == |daily[d]| && m.dau[d] <= m.wau[d] <= m.mau[d])
      && (forall d :: d in daily ==> m.wau[d] == |ActiveIn(daily, d - 6, d)| && m.mau[d] == |ActiveIn(daily, d - 29, d)|)
      && (ToLower(aggregation) == "week" || ToLower(aggregation) == "month" ==> m.wau == m.dau)
  {
    var raw := DailyMap(DailyActiveUsers(users, start, end));
    var daily := AggregatedDaily(users, start, end, aggregation, monthStart);
    DailyActiveUsersDisjoint(users, start, end);
    if !EqualsIgnoreCase("day", aggregation) {
      RebucketKeepsDisjoint(raw, BucketOf(aggregation, monthStart));
    }
    assert DisjointDays(daily);
    forall d | d in daily
      ensures RollingCount(daily, 7, d) == |ActiveIn(daily, d - 6, d)|
      ensures RollingCount(daily, 30, d) == |ActiveIn(daily, d - 29, d)|
      ensures |daily[d]| <= RollingCount(daily, 7, d) <= RollingCount(daily, 30, d)
    {
      RollingDisjoint(daily, d);
    }
    AggregateMeaning(raw, aggregation, monthStart);
    if ToLower(aggregation) == "week" || ToLower(aggregation) == "month" {
      WauIsDauWhenKeysApart(daily);
    }
  }
}
