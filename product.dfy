/** `ProductMetricsService`: the first five rows of the product-performance
    query, each copied column by column into a `ProductPerformanceDTO`. A row
    is an `Object[]`; its cells are read with Java casts. */
module ProductMetrics {
  import opened Common
  import opened Calendar
  import opened Entities
  import opened OrderRepository

  /** `ProductPerformanceDTO`. A cast of `null` succeeds in Java, so every
      field may be absent. */
  datatype ProductPerformanceDto = ProductPerformanceDto(
    courseId: Option<int>, courseName: Option<string>, salesCount: Option<int>, revenue: Option<Money>)

  /** `.limit(5)` */
  const TopCount: nat := 5

  /** The class each cell is cast to. */
  datatype Column = LongColumn | StringColumn | BigDecimalColumn

  /** `(Long) data[0]`, `(String) data[1]`, `(Long) data[2]`, `(BigDecimal) data[3]`. */
  const ColumnTypes: seq<Column> := [LongColumn, StringColumn, LongColumn, BigDecimalColumn]

  /** A reference cast succeeds on `null` and on an instance of the target class. */
  predicate CastsTo(v: RawValue, c: Column)
  {
    match c
    case LongColumn => v.Null? || v.LongValue?
    case StringColumn => v.Null? || v.StringValue?
    case BigDecimalColumn => v.Null? || v.BigDecimalValue?
  }

  /** Cell `i` exists and survives its cast. */
  predicate CellFits(row: seq<RawValue>, i: nat)
    requires i < |ColumnTypes|
  {
    i < |row| && CastsTo(row[i], ColumnTypes[i])
  }

  /** What reading and casting cell `i` throws when it does not fit. */
  function CellError(row: seq<RawValue>, i: nat): MetricsError
  {
    if i < |row| then ClassCast(ClassName(row[i])) else IndexOutOfBounds(i)
  }

  /** Every cell the mapper reads fits its cast. */
  predicate WellTyped(row: seq<RawValue>)
  {
    forall i :: 0 <= i < |ColumnTypes| ==> CellFits(row, i)
  }

  /** `data[i]` followed by its cast. */
  function Cell(row: seq<RawValue>, i: nat): Result<RawValue, MetricsError>
    requires i < |ColumnTypes|
  {
    if CellFits(row, i) then Success(row[i]) else Failure(CellError(row, i))
  }

  /** The value a successful cast yields; `null` stays absent. */
  function LongOf(v: RawValue): Option<int>
  {
    if v.LongValue? then Some(v.i) else None
  }

  function StringOf(v: RawValue): Option<string>
  {
    if v.StringValue? then Some(v.s) else None
  }

  function BigDecimalOf(v: RawValue): Option<Money>
  {
    if v.BigDecimalValue? then Some(v.hundredths) else None
  }

  /** `mapToProductPerformanceDTO(data)`: the four casts in order, the first
      that throws ending the call. It succeeds exactly on a well-typed row,
      then carries cells 0 to 3 unchanged into the record. */
  function MapToProductPerformanceDto(row: seq<RawValue>): (r: Result<ProductPerformanceDto, MetricsError>)
    ensures r.Success? <==> WellTyped(row)
    ensures r.Success? ==>
      (&& |row| >= 4
       && r.value.courseId == LongOf(row[0]) && r.value.courseName == StringOf(row[1])
       && r.value.salesCount == LongOf(row[2]) && r.value.revenue == BigDecimalOf(row[3]))
  {
    match Cell(row, 0)
    case Failure(e) => Failure(e)
    case Success(courseId) =>
      match Cell(row, 1)
      case Failure(e) => Failure(e)
      case Success(courseName) =>
        match Cell(row, 2)
        case Failure(e) => Failure(e)
        case Success(salesCount) =>
          match Cell(row, 3)
          case Failure(e) => Failure(e)
          case Success(revenue) =>
            Success(ProductPerformanceDto(LongOf(courseId), StringOf(courseName), LongOf(salesCount), BigDecimalOf(revenue)))
  }

  /** A failing row fails on its first unfit cell: a short row with an index
      error at its length, a mistyped cell with a cast error naming its class. */
  lemma MapToProductPerformanceDtoFailure(row: seq<RawValue>)
    ensures MapToProductPerformanceDto(row).Failure? ==>
      exists i :: 0 <= i < |ColumnTypes| && !CellFits(row, i) && (forall j :: 0 <= j < i ==> CellFits(row, j))
        && MapToProductPerformanceDto(row).error == CellError(row, i)
  {
    if !CellFits(row, 0) {
      assert MapToProductPerformanceDto(row).error == CellError(row, 0);
    } else if !CellFits(row, 1) {
      assert forall j :: 0 <= j < 1 ==> CellFits(row, j);
    } else if !CellFits(row, 2) {
      assert forall j :: 0 <= j < 2 ==> CellFits(row, j);
    } else if !CellFits(row, 3) {
      assert forall j :: 0 <= j < 3 ==> CellFits(row, j);
    }
  }

  /** Cells after the fourth are never read. */
  lemma MapIgnoresExtraCells(row: seq<RawValue>, extra: seq<RawValue>)
    requires |row| >= 4
    ensures MapToProductPerformanceDto(row + extra) == MapToProductPerformanceDto(row)
  {
    assert forall i :: 0 <= i < 4 ==> (row + extra)[i] == row[i];
  }

  /** The record a query row of `OrderRepository` should become. */
  function DtoOf(p: ProductRow): ProductPerformanceDto
  {
    ProductPerformanceDto(Some(p.courseId), Some(p.courseName), Some(p.salesCount), Some(p.revenue))
  }

  /** Round trip: the mapper reads back every field the query put in a row. */
  lemma MapProductRowValues(p: ProductRow)
    ensures MapToProductPerformanceDto(ProductRowValues(p)) == Success(DtoOf(p))
  {
    var row := ProductRowValues(p);
    assert CellFits(row, 0) && CellFits(row, 1) && CellFits(row, 2) && CellFits(row, 3);
  }

  /** `.map(this::mapToProductPerformanceDTO).collect(toList())` over a
      sequential stream: rows in order, the first exception ending the call. */
  function MapRows(rows: seq<seq<RawValue>>): (r: Result<seq<ProductPerformanceDto>, MetricsError>)
    ensures r.Success? ==>
      (&& |r.value| == |rows|
       && forall i :: 0 <= i < |rows| ==> MapToProductPerformanceDto(rows[i]) == Success(r.value[i]))
  {
    if rows == [] then Success([])
    else
      match MapToProductPerformanceDto(rows[0])
      case Failure(e) => Failure(e)
      case Success(dto) =>
        match MapRows(rows[1..])
        case Failure(e) => Failure(e)
        case Success(rest) => Success([dto] + rest)
  }

  /** The stream fails exactly when some row fails, with the error of the
      first failing row. */
  lemma {:induction false} MapRowsFailure(rows: seq<seq<RawValue>>)
    ensures MapRows(rows).Failure? <==> exists i :: 0 <= i < |rows| && !WellTyped(rows[i])
    ensures MapRows(rows).Failure? ==>
      exists i :: 0 <= i < |rows| && !WellTyped(rows[i]) && (forall j :: 0 <= j < i ==> WellTyped(rows[j]))
        && MapRows(rows).error == MapToProductPerformanceDto(rows[i]).error
  {
    if rows != [] {
      MapRowsFailure(rows[1..]);
      if WellTyped(rows[0]) && MapRows(rows[1..]).Failure? {
        var i :| 0 <= i < |rows[1..]| && !WellTyped(rows[1..][i]) && (forall j :: 0 <= j < i ==> WellTyped(rows[1..][j]))
          && MapRows(rows[1..]).error == MapToProductPerformanceDto(rows[1..][i]).error;
        assert forall j :: 1 <= j < |rows| ==> rows[j] == rows[1..][j - 1];
        assert rows[i + 1] == rows[1..][i];
      }
      if WellTyped(rows[0]) && MapRows(rows[1..]).Success? {
        assert forall i :: 1 <= i < |rows| ==> rows[i] == rows[1..][i - 1];
      }
    }
  }

  /** `getProductPerformance(start, end)` given the query's rows: only the
      first five reach the mapper. */
  function GetProductPerformance(rows: seq<seq<RawValue>>): Result<seq<ProductPerformanceDto>, MetricsError>
  {
    MapRows(rows[..Min(TopCount, |rows|)])
  }

  function Min(a: nat, b: nat): nat
  {
    if a <= b then a else b
  }

  /** On success the output has min(5, rows) records, the mapped prefix of the
      rows in their own order; it fails exactly when one of the first five
      rows is not well typed, and rows after the fifth are never looked at. */
  lemma GetProductPerformanceMeaning(rows: seq<seq<RawValue>>)
    ensures GetProductPerformance(rows).Success? ==>
      var out := GetProductPerformance(rows).value;
      |out| == Min(TopCount, |rows|)
      && forall i :: 0 <= i < |out| ==> MapToProductPerformanceDto(rows[i]) == Success(out[i])
    ensures GetProductPerformance(rows).Failure? <==>
      exists i :: 0 <= i < Min(TopCount, |rows|) && !WellTyped(rows[i])
    ensures forall extra :: |rows| >= TopCount ==> GetProductPerformance(rows + extra) == GetProductPerformance(rows)
  {
    var top := rows[..Min(TopCount, |rows|)];
    MapRowsFailure(top);
    assert forall i :: 0 <= i < |top| ==> top[i] == rows[i];
    forall extra | |rows| >= TopCount
      ensures GetProductPerformance(rows + extra) == GetProductPerformance(rows)
    {
      assert (rows + extra)[..TopCount] == rows[..TopCount];
    }
  }

  /** No rows, no records. */
  lemma GetProductPerformanceEmpty()
    ensures GetProductPerformance([]) == Success([])
  {
  }

  /** What the service returns for the query's own rows: it never fails, and
      gives the five best sellers of the period (or all of them, if fewer
      sold), best first, each course's count and revenue carried over. */
  lemma ProductPerformanceOfQuery(courses: seq<Course>, orders: seq<Order>, start: Instant, end: Instant)
    ensures var p := ProductPerformance(courses, orders, start, end);
      var r := GetProductPerformance(ProductPerformanceRows(courses, orders, start, end));
      && r.Success?
      && |r.value| == Min(TopCount, |p|)
      && (forall i :: 0 <= i < |r.value| ==> r.value[i] == DtoOf(p[i]))
      && (forall i, j :: 0 <= i < j < |r.value| ==> r.value[i].salesCount.value >= r.value[j].salesCount.value)
  {
    var p := ProductPerformance(courses, orders, start, end);
    var rows := ProductPerformanceRows(courses, orders, start, end);
    ProductPerformanceMeaning(courses, orders, start, end);
    forall i | 0 <= i < |rows|
      ensures WellTyped(rows[i]) && MapToProductPerformanceDto(rows[i]) == Success(DtoOf(p[i]))
    {
      MapProductRowValues(p[i]);
    }
    GetProductPerformanceMeaning(rows);
  }
}
