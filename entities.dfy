/** The stored entities (users, courses, orders), the untyped values that
    JDBC hands back in `Object[]` result rows, and the failures the metrics
    engine can raise. */
module Entities {
  import opened Common
  import opened Calendar

  type UserId = int
  type CourseId = int
  type OrderId = int

  /** A `BigDecimal` amount with at most two decimal places, as whole hundredths. */
  type Money = int

  /** A user; `lastActivityDate` is null for a user never active. */
  datatype User = User(id: UserId, registrationDate: Instant, lastActivityDate: Option<Instant>)

  datatype Course = Course(id: CourseId, name: string, price: Money)

  /** An order refers to its user and course by identifier. */
  datatype Order = Order(id: OrderId, userId: UserId, courseId: CourseId, orderDate: Instant, amount: Money)

  /** The contents of the three tables the metrics read. */
  datatype Store = Store(users: seq<User>, courses: seq<Course>, orders: seq<Order>)

  /** Primary keys: no two users share an identifier. */
  predicate UniqueUserIds(users: seq<User>)
  {
    forall i, j :: 0 <= i < j < |users| ==> users[i].id != users[j].id
  }

  predicate UniqueCourseIds(courses: seq<Course>)
  {
    forall i, j :: 0 <= i < j < |courses| ==> courses[i].id != courses[j].id
  }

  predicate HasCourse(courses: seq<Course>, id: CourseId)
  {
    exists c :: c in courses && c.id == id
  }

  /** What the schema guarantees: primary keys are unique, every order
      references an existing course, and amounts are not negative. */
  predicate ValidStore(store: Store)
  {
    && UniqueUserIds(store.users)
    && UniqueCourseIds(store.courses)
    && (forall o :: o in store.orders ==> o.amount >= 0 && HasCourse(store.courses, o.courseId))
  }

  /** One cell of an untyped result row, by its Java class. */
  datatype RawValue =
    | Null
    | SqlDate(date: Day)                 // java.sql.Date
    | SqlTimestamp(at: Instant)          // java.sql.Timestamp
    | UtilDate(epochSecond: int)         // java.util.Date: an instant, read in the system time zone
    | LocalDateValue(date: Day)          // java.time.LocalDate
    | BigDecimalValue(hundredths: int)   // java.math.BigDecimal
    | DoubleValue(x: real)               // java.lang.Double
    | FloatValue(x: real)                // java.lang.Float
    | IntegerValue(i: int)               // java.lang.Integer
    | LongValue(i: int)                  // java.lang.Long
    | StringValue(s: string)             // java.lang.String
    | OtherValue(className: string)      // any other class

  function ClassName(v: RawValue): string
  {
    match v
    case Null => "null"
    case SqlDate(_) => "java.sql.Date"
    case SqlTimestamp(_) => "java.sql.Timestamp"
    case UtilDate(_) => "java.util.Date"
    case LocalDateValue(_) => "java.time.LocalDate"
    case BigDecimalValue(_) => "java.math.BigDecimal"
    case DoubleValue(_) => "java.lang.Double"
    case FloatValue(_) => "java.lang.Float"
    case IntegerValue(_) => "java.lang.Integer"
    case LongValue(_) => "java.lang.Long"
    case StringValue(_) => "java.lang.String"
    case OtherValue(name) => name
  }

  /** The exceptions the engine lets escape. */
  datatype MetricsError =
    | UnsupportedDateType(dateClass: string)      // IllegalArgumentException from convertToLocalDate
    | UnsupportedNumberType(numberClass: string)  // IllegalArgumentException from convertToDouble
    | ClassCast(actualClass: string)              // ClassCastException from a cast of a row cell
    | IndexOutOfBounds(index: nat)                // ArrayIndexOutOfBoundsException on a short row
    | NullPointer                                 // NullPointerException on a null value
}
