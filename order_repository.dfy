/** The queries of `OrderRepository`, as functions over the `orders` table (and
    the `courses` table for the product join). */
module OrderRepository {
  import opened Common
  import opened Calendar
  import opened Entities

  predicate OrderedBetween(o: Order, start: Instant, end: Instant)
  {
    Between(o.orderDate, start, end)
  }

  /** `countByOrderDateBetween` */
  function CountByOrderDateBetween(orders: seq<Order>, start: Instant, end: Instant): (n: nat)
    ensures n <= |orders|
    ensures n == 0 <==> forall o :: o in orders ==> !OrderedBetween(o, start, end)
  {
    if orders == [] then 0
    else
      assert forall o :: o in orders ==> o == orders[0] || o in orders[1..];
      (if OrderedBetween(orders[0], start, end) then 1 else 0)
        + CountByOrderDateBetween(orders[1..], start, end)
  }

  /** `SUM(o.amount)` over every order; an empty table sums to zero here and
      `TotalRevenue` below turns that case into SQL's null. */
  function SumAmounts(orders: seq<Order>): Money
  {
    if orders == [] then 0 else orders[0].amount + SumAmounts(orders[1..])
  }

  /** `getTotalRevenueBetween`: `COALESCE(SUM(o.amount), 0)` over the orders in
      the period, so it is zero (never null) when none falls inside. */
  function TotalRevenueBetween(orders: seq<Order>, start: Instant, end: Instant): (total: Money)
    ensures (forall o :: o in orders ==> !OrderedBetween(o, start, end)) ==> total == 0
    ensures (forall o :: o in orders ==> o.amount >= 0) ==> total >= 0
  {
    if orders == [] then 0
    else
      assert forall o :: o in orders ==> o == orders[0] || o in orders[1..];
      (if OrderedBetween(orders[0], start, end) then orders[0].amount else 0)
        + TotalRevenueBetween(orders[1..], start, end)
  }

  /** `getTotalRevenue`: `SUM(o.amount)` without `COALESCE`, which is null on an
      empty table. */
  function TotalRevenue(orders: seq<Order>): (r: Option<Money>)
    ensures r.None? <==> orders == []
  {
    if orders == [] then None else Some(SumAmounts(orders))
  }

  /** Over a period that holds every order, the unbounded total and the period
      total agree. */
  lemma {:induction false} TotalRevenueCoversPeriod(orders: seq<Order>, start: Instant, end: Instant)
    requires orders != []
    requires forall o :: o in orders ==> OrderedBetween(o, start, end)
    ensures TotalRevenue(orders) == Some(TotalRevenueBetween(orders, start, end))
  {
    SumAmountsCoversPeriod(orders, start, end);
  }

  lemma {:induction false} SumAmountsCoversPeriod(orders: seq<Order>, start: Instant, end: Instant)
    requires forall o :: o in orders ==> OrderedBetween(o, start, end)
    ensures SumAmounts(orders) == TotalRevenueBetween(orders, start, end)
  {
    if orders != [] {
      assert orders[0] in orders;
      SumAmountsCoversPeriod(orders[1..], start, end);
    }
  }

  /** The users behind the orders of the period. */
  function PayingUserIds(orders: seq<Order>, start: Instant, end: Instant): set<UserId>
  {
    set o | o in orders && OrderedBetween(o, start, end) :: o.userId
  }

  /** `countDistinctPayingUsersBetween`: `COUNT(DISTINCT o.user.id)` over the period. */
  function CountDistinctPayingUsersBetween(orders: seq<Order>, start: Instant, end: Instant): nat
  {
    |PayingUserIds(orders, start, end)|
  }

  /** Every paying user placed at least one of the period's orders: there are
      never more distinct payers than orders, and there are payers exactly
      when there are orders. */
  lemma {:induction false} PayingUsersAtMostOrders(orders: seq<Order>, start: Instant, end: Instant)
    ensures CountDistinctPayingUsersBetween(orders, start, end) <= CountByOrderDateBetween(orders, start, end)
    ensures CountDistinctPayingUsersBetween(orders, start, end) == 0
      <==> CountByOrderDateBetween(orders, start, end) == 0
  {
    var ids := PayingUserIds(orders, start, end);
    if orders != [] {
      var rest := PayingUserIds(orders[1..], start, end);
      PayingUsersAtMostOrders(orders[1..], start, end);
      assert forall o :: o in orders <==> o == orders[0] || o in orders[1..];
      if OrderedBetween(orders[0], start, end) {
        assert ids == rest + {orders[0].userId};
        assert orders[0].userId in ids;
      } else {
        assert ids == rest;
      }
    }
  }

  /** `findByUser`: every order of the user, in table order, whatever its date. */
  function FindByUser(orders: seq<Order>, id: UserId): (r: seq<Order>)
    ensures |r| <= |orders|
    ensures forall o :: o in r <==> o in orders && o.userId == id
  {
    if orders == [] then []
    else
      assert forall o :: o in orders <==> o == orders[0] || o in orders[1..];
      (if orders[0].userId == id then [orders[0]] else []) + FindByUser(orders[1..], id)
  }

  /** A row `(c.id, c.name, COUNT(o.id), SUM(o.amount))` of `getProductPerformance`. */
  datatype ProductRow = ProductRow(courseId: CourseId, courseName: string, salesCount: nat, revenue: Money)

  /** A per-order weight summed by a query: one for `COUNT`, the amount for `SUM`. */
  function One(o: Order): int { 1 }

  function Amount(o: Order): int { o.amount }

  /** The weights of the period's orders of one course. */
  function CourseTotal(orders: seq<Order>, id: CourseId, start: Instant, end: Instant, w: Order -> int): int
  {
    if orders == [] then 0
    else
      (if OrderedBetween(orders[0], start, end) && orders[0].courseId == id then w(orders[0]) else 0)
        + CourseTotal(orders[1..], id, start, end, w)
  }

  /** `COUNT(o.id)` of one course's group. */
  function CourseSales(orders: seq<Order>, id: CourseId, start: Instant, end: Instant): (n: nat)
    ensures n == 0 <==> forall o :: o in orders && OrderedBetween(o, start, end) ==> o.courseId != id
  {
    if orders == [] then 0
    else
      assert forall o :: o in orders <==> o == orders[0] || o in orders[1..];
      (if OrderedBetween(orders[0], start, end) && orders[0].courseId == id then 1 else 0)
        + CourseSales(orders[1..], id, start, end)
  }

  lemma {:induction false} CourseSalesIsCount(orders: seq<Order>, id: CourseId, start: Instant, end: Instant)
    ensures CourseSales(orders, id, start, end) == CourseTotal(orders, id, start, end, One)
  {
    if orders != [] {
      CourseSalesIsCount(orders[1..], id, start, end);
    }
  }

  /** The group of a course: its identifier and name with the count and sum of
      its orders in the period. */
  function GroupRow(c: Course, orders: seq<Order>, start: Instant, end: Instant): ProductRow
  {
    ProductRow(c.id, c.name, CourseSales(orders, c.id, start, end), CourseTotal(orders, c.id, start, end, Amount))
  }

  /** `FROM Order o JOIN o.course c ... GROUP BY c.id, c.name`: one group per
      course that has an order in the period (the inner join drops the rest),
      before ordering. */
  function Groups(courses: seq<Course>, orders: seq<Order>, start: Instant, end: Instant): (rows: seq<ProductRow>)
    ensures forall r :: r in rows <==>
      exists c :: c in courses && CourseSales(orders, c.id, start, end) > 0 && r == GroupRow(c, orders, start, end)
  {
    if courses == [] then []
    else
      var c := courses[0];
      assert forall d :: d in courses <==> d == c || d in courses[1..];
      (if CourseSales(orders, c.id, start, end) > 0 then [GroupRow(c, orders, start, end)] else [])
        + Groups(courses[1..], orders, start, end)
  }

  predicate NonIncreasingSales(rows: seq<ProductRow>)
  {
    forall i, j :: 0 <= i < j < |rows| ==> rows[i].salesCount >= rows[j].salesCount
  }

  /** Puts a row in front of the first row that sold no more than it. */
  function InsertBySales(r: ProductRow, rows: seq<ProductRow>): (out: seq<ProductRow>)
    requires NonIncreasingSales(rows)
    ensures NonIncreasingSales(out)
    ensures multiset(out) == multiset(rows) + multiset{r}
    ensures out != [] && (out[0] == r || (rows != [] && out[0] == rows[0]))
  {
    if rows == [] then [r]
    else if r.salesCount >= rows[0].salesCount then [r] + rows
    else
      var rest := InsertBySales(r, rows[1..]);
      assert rows == [rows[0]] + rows[1..];
      assert rows[0].salesCount >= rest[0].salesCount;
      [rows[0]] + rest
  }

  /** `ORDER BY COUNT(o.id) DESC`. The database leaves the order of groups with
      equal counts open; the model keeps them in course-table order. */
  function SortBySalesDesc(rows: seq<ProductRow>): (out: seq<ProductRow>)
    ensures NonIncreasingSales(out)
    ensures multiset(out) == multiset(rows)
  {
    if rows == [] then []
    else
      assert rows == [rows[0]] + rows[1..];
      InsertBySales(rows[0], SortBySalesDesc(rows[1..]))
  }

  /** `getProductPerformance`, as typed rows. */
  function ProductPerformance(courses: seq<Course>, orders: seq<Order>, start: Instant, end: Instant): seq<ProductRow>
  {
    SortBySalesDesc(Groups(courses, orders, start, end))
  }

  /** The query's rows are ordered by count, best seller first, and are exactly
      the groups: one per course that sold in the period, with that course's
      order count and revenue. */
  lemma ProductPerformanceMeaning(courses: seq<Course>, orders: seq<Order>, start: Instant, end: Instant)
    ensures NonIncreasingSales(ProductPerformance(courses, orders, start, end))
    ensures forall r :: r in ProductPerformance(courses, orders, start, end) <==>
      exists c :: c in courses && CourseSales(orders, c.id, start, end) > 0 && r == GroupRow(c, orders, start, end)
    ensures forall r :: r in ProductPerformance(courses, orders, start, end) ==> r.salesCount > 0
  {
    var g := Groups(courses, orders, start, end);
    var p := ProductPerformance(courses, orders, start, end);
    assert forall r :: r in p <==> r in multiset(p);
    assert forall r :: r in g <==> r in multiset(g);
  }

  /** The `Object[]` shape JDBC hands back: `Long`, `String`, `Long`, `BigDecimal`. */
  function ProductRowValues(r: ProductRow): seq<RawValue>
  {
    [LongValue(r.courseId), StringValue(r.courseName), LongValue(r.salesCount), BigDecimalValue(r.revenue)]
  }

  function ProductPerformanceRows(courses: seq<Course>, orders: seq<Order>, start: Instant, end: Instant): (rows: seq<seq<RawValue>>)
    ensures |rows| == |ProductPerformance(courses, orders, start, end)|
  {
    var p := ProductPerformance(courses, orders, start, end);
    seq(|p|, i requires 0 <= i < |p| => ProductRowValues(p[i]))
  }

  // ---- The groups add up to the period's totals ----

  function TotalSales(rows: seq<ProductRow>): int
  {
    if rows == [] then 0 else rows[0].salesCount + TotalSales(rows[1..])
  }

  function TotalRowRevenue(rows: seq<ProductRow>): int
  {
    if rows == [] then 0 else rows[0].revenue + TotalRowRevenue(rows[1..])
  }

  lemma {:induction false} InsertKeepsTotals(r: ProductRow, rows: seq<ProductRow>)
    requires NonIncreasingSales(rows)
    ensures TotalSales(InsertBySales(r, rows)) == r.salesCount + TotalSales(rows)
    ensures TotalRowRevenue(InsertBySales(r, rows)) == r.revenue + TotalRowRevenue(rows)
  {
    if rows != [] && r.salesCount < rows[0].salesCount {
      InsertKeepsTotals(r, rows[1..]);
      var out := InsertBySales(r, rows);
      assert out[1..] == InsertBySales(r, rows[1..]);
    }
  }

  lemma {:induction false} SortKeepsTotals(rows: seq<ProductRow>)
    ensures TotalSales(SortBySalesDesc(rows)) == TotalSales(rows)
    ensures TotalRowRevenue(SortBySalesDesc(rows)) == TotalRowRevenue(rows)
  {
    if rows != [] {
      SortKeepsTotals(rows[1..]);
      InsertKeepsTotals(rows[0], SortBySalesDesc(rows[1..]));
    }
  }

  /** The weights of the period's orders, over all courses. */
  function RangeTotal(orders: seq<Order>, start: Instant, end: Instant, w: Order -> int): int
  {
    if orders == [] then 0
    else (if OrderedBetween(orders[0], start, end) then w(orders[0]) else 0) + RangeTotal(orders[1..], start, end, w)
  }

  /** How many courses carry a given identifier: one, in a valid store. */
  function CoursesWithId(courses: seq<Course>, id: CourseId): nat
  {
    if courses == [] then 0 else (if courses[0].id == id then 1 else 0) + CoursesWithId(courses[1..], id)
  }

  /** The per-course totals summed over the course table. */
  function AllCourseTotals(courses: seq<Course>, orders: seq<Order>, start: Instant, end: Instant, w: Order -> int): int
  {
    if courses == [] then 0
    else CourseTotal(orders, courses[0].id, start, end, w) + AllCourseTotals(courses[1..], orders, start, end, w)
  }

  /** Peeling the first order off every course's total. */
  lemma {:induction false} AllCourseTotalsStep(courses: seq<Course>, orders: seq<Order>, start: Instant, end: Instant, w: Order -> int)
    requires orders != []
    ensures AllCourseTotals(courses, orders, start, end, w)
      == (if OrderedBetween(orders[0], start, end) then CoursesWithId(courses, orders[0].courseId) * w(orders[0]) else 0)
         + AllCourseTotals(courses, orders[1..], start, end, w)
  {
    if courses != [] {
      AllCourseTotalsStep(courses[1..], orders, start, end, w);
      var k := CoursesWithId(courses[1..], orders[0].courseId);
      var x := w(orders[0]);
      assert (if courses[0].id == orders[0].courseId then 1 else 0) * x + k * x
        == ((if courses[0].id == orders[0].courseId then 1 else 0) + k) * x;
    }
  }

  lemma {:induction false} CoursesWithIdOne(courses: seq<Course>, id: CourseId)
    requires UniqueCourseIds(courses) && HasCourse(courses, id)
    ensures CoursesWithId(courses, id) == 1
  {
    if courses[0].id == id {
      CoursesWithIdNone(courses[1..], id);
    } else {
      var c :| c in courses && c.id == id;
      assert c in courses[1..];
      CoursesWithIdOne(courses[1..], id);
    }
  }

  lemma {:induction false} CoursesWithIdNone(courses: seq<Course>, id: CourseId)
    requires forall c :: c in courses ==> c.id != id
    ensures CoursesWithId(courses, id) == 0
  {
    if courses != [] {
      assert courses[0] in courses;
      CoursesWithIdNone(courses[1..], id);
    }
  }

  /** When every order names exactly one course, summing per course and then
      over the courses gives the same as summing over the period's orders. */
  lemma {:induction false} AllCourseTotalsIsRangeTotal(courses: seq<Course>, orders: seq<Order>, start: Instant, end: Instant, w: Order -> int)
    requires UniqueCourseIds(courses)
    requires forall o :: o in orders ==> HasCourse(courses, o.courseId)
    ensures AllCourseTotals(courses, orders, start, end, w) == RangeTotal(orders, start, end, w)
  {
    if orders == [] {
      AllCourseTotalsEmpty(courses, start, end, w);
    } else {
      assert orders[0] in orders;
      AllCourseTotalsStep(courses, orders, start, end, w);
      CoursesWithIdOne(courses, orders[0].courseId);
      assert forall o :: o in orders[1..] ==> o in orders;
      AllCourseTotalsIsRangeTotal(courses, orders[1..], start, end, w);
    }
  }

  lemma {:induction false} AllCourseTotalsEmpty(courses: seq<Course>, start: Instant, end: Instant, w: Order -> int)
    ensures AllCourseTotals(courses, [], start, end, w) == 0
  {
    if courses != [] {
      AllCourseTotalsEmpty(courses[1..], start, end, w);
    }
  }

  /** The groups' counts and sums add up to every course's totals (a course
      that sold nothing adds zero to both). */
  lemma {:induction false} GroupsTotals(courses: seq<Course>, orders: seq<Order>, start: Instant, end: Instant)
    ensures TotalSales(Groups(courses, orders, start, end)) == AllCourseTotals(courses, orders, start, end, One)
    ensures TotalRowRevenue(Groups(courses, orders, start, end)) == AllCourseTotals(courses, orders, start, end, Amount)
  {
    if courses != [] {
      var c := courses[0];
      GroupsTotals(courses[1..], orders, start, end);
      CourseSalesIsCount(orders, c.id, start, end);
      if CourseSales(orders, c.id, start, end) == 0 {
        CourseTotalZero(orders, c.id, start, end, Amount);
        assert Groups(courses, orders, start, end) == Groups(courses[1..], orders, start, end);
      } else {
        var g := Groups(courses, orders, start, end);
        assert g[1..] == Groups(courses[1..], orders, start, end);
      }
    }
  }

  lemma {:induction false} CourseTotalZero(orders: seq<Order>, id: CourseId, start: Instant, end: Instant, w: Order -> int)
    requires CourseSales(orders, id, start, end) == 0
    ensures CourseTotal(orders, id, start, end, w) == 0
  {
    if orders != [] {
      CourseTotalZero(orders[1..], id, start, end, w);
    }
  }

  lemma {:induction false} RangeTotalOne(orders: seq<Order>, start: Instant, end: Instant)
    ensures RangeTotal(orders, start, end, One) == CountByOrderDateBetween(orders, start, end)
  {
    if orders != [] {
      RangeTotalOne(orders[1..], start, end);
    }
  }

  lemma {:induction false} RangeTotalAmount(orders: seq<Order>, start: Instant, end: Instant)
    ensures RangeTotal(orders, start, end, Amount) == TotalRevenueBetween(orders, start, end)
  {
    if orders != [] {
      RangeTotalAmount(orders[1..], start, end);
    }
  }

  /** In a valid store the product rows account for every order of the period:
      their counts add up to `countByOrderDateBetween` and their revenues to
      `getTotalRevenueBetween` over the same range. */
  lemma ProductPerformanceAddsUp(store: Store, start: Instant, end: Instant)
    requires ValidStore(store)
    ensures TotalSales(ProductPerformance(store.courses, store.orders, start, end))
      == CountByOrderDateBetween(store.orders, start, end)
    ensures TotalRowRevenue(ProductPerformance(store.courses, store.orders, start, end))
      == TotalRevenueBetween(store.orders, start, end)
  {
    var courses, orders := store.courses, store.orders;
    SortKeepsTotals(Groups(courses, orders, start, end));
    GroupsTotals(courses, orders, start, end);
    AllCourseTotalsIsRangeTotal(courses, orders, start, end, One);
    AllCourseTotalsIsRangeTotal(courses, orders, start, end, Amount);
    RangeTotalOne(orders, start, end);
    RangeTotalAmount(orders, start, end);
  }
}
