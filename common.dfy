/** Small building blocks shared by the whole model: failure-carrying results,
    Java's case folding as far as comparisons with the engine's keywords
    depend on it, a sorted view of a finite set of integers, and
    BigDecimal's HALF_UP division at a fixed scale. */
module Common {

  datatype Option<+T> = None | Some(value: T)

  datatype Result<+T, +E> = Success(value: T) | Failure(error: E)

  /** KELVIN SIGN, U+212A: Java lowers it to the ASCII letter 'k'. */
  const KelvinSign: char := '\U{212A}'

  /** Java's `Character.toLowerCase` on the characters it lowers to an ASCII
      letter other than 'i': 'A' to 'Z' and the KELVIN SIGN. Every other
      character is kept as it is. */
  function LowerChar(c: char): char
  {
    if 'A' <= c <= 'Z' then (c as int + 32) as char
    else if c == KelvinSign then 'k'
    else c
  }

  /** `String.toLowerCase()` on the characters `LowerChar` covers. */
  function ToLower(s: string): (r: string)
    ensures |r| == |s|
    ensures forall i :: 0 <= i < |s| ==> r[i] == LowerChar(s[i])
  {
    seq(|s|, i requires 0 <= i < |s| => LowerChar(s[i]))
  }

  /** `a.equalsIgnoreCase(b)`: both sides agree once lower-cased. */
  predicate EqualsIgnoreCase(a: string, b: string)
  {
    ToLower(a) == ToLower(b)
  }

  /** For a keyword that is already lower case, ignoring case is the same as
      comparing the lower-cased argument with it (a `switch` on `toLowerCase()`). */
  lemma EqualsIgnoreCaseLowerKeyword(keyword: string, s: string)
    requires ToLower(keyword) == keyword
    ensures EqualsIgnoreCase(keyword, s) <==> ToLower(s) == keyword
  {
  }

  /** A KELVIN SIGN in place of the 'K' still spells "week", for the
      `switch` on `toLowerCase()` and for `equalsIgnoreCase` alike. */
  lemma KelvinSignWeek()
    ensures ToLower("WEE" + [KelvinSign]) == "week"
    ensures EqualsIgnoreCase("week", "WEE" + [KelvinSign])
  {
    assert ToLower("WEE" + [KelvinSign])[3] == 'k';
  }

  predicate StrictlyIncreasing(s: seq<int>)
  {
    forall a, b :: 0 <= a < b < |s| ==> s[a] < s[b]
  }

  /** A non-empty set of integers has a member. */
  lemma NonEmptyHasMember(s: set<int>)
    requires s != {}
    ensures exists y :: y in s
  {
    assert (forall y :: y !in s) ==> s == {};
  }

  lemma {:induction false} MinimumExists(s: set<int>)
    requires s != {}
    ensures exists m :: m in s && forall x :: x in s ==> m <= x
  {
    NonEmptyHasMember(s);
    var y :| y in s;
    if s != {y} {
      MinimumExists(s - {y});
      var m :| m in s - {y} && forall x :: x in s - {y} ==> m <= x;
      var least := if y < m then y else m;
      forall x | x in s
        ensures least <= x
      {
        if x != y { assert x in s - {y}; }
      }
      assert least in s;
    } else {
      assert forall x :: x in s ==> y <= x;
    }
  }

  /** The least element of a non-empty finite set of integers. */
  function Minimum(s: set<int>): (m: int)
    requires s != {}
    ensures m in s && forall x :: x in s ==> m <= x
  {
    MinimumExists(s);
    var m :| m in s && forall x :: x in s ==> m <= x;
    m
  }

  /** The elements of a finite set of integers in ascending order, as
      `Collections.sort` leaves a list of distinct keys. */
  function SortedSeq(s: set<int>): (r: seq<int>)
    ensures StrictlyIncreasing(r)
    ensures |r| == |s|
    ensures forall x :: x in r <==> x in s
    decreases |s|
  {
    if s == {} then []
    else
      var m := Minimum(s);
      var rest := SortedSeq(s - {m});
      assert forall x :: x in rest ==> m < x;
      [m] + rest
  }

  /** `x.divide(y, 2, RoundingMode.HALF_UP)` where `x` and the result are held as
      whole hundredths and `y` is a positive whole number: the quotient rounded
      to the nearest integer, ties away from zero. */
  function DivideHalfUp(a: int, b: int): (q: int)
    requires b > 0
    ensures a >= 0 ==> 2 * b * q - b <= 2 * a < 2 * b * q + b
    ensures a < 0 ==> 2 * b * q - b < 2 * a <= 2 * b * q + b
  {
    if a >= 0 then HalfUpNonNegative(a, b) else -HalfUpNonNegative(-a, b)
  }

  function HalfUpNonNegative(a: nat, b: int): (q: int)
    requires b > 0
    ensures 2 * b * q - b <= 2 * a < 2 * b * q + b
  {
    var x, y := 2 * a + b, 2 * b;
    var q := x / y;
    assert y * q <= x < y * q + y by {
      assert x == y * q + x % y;
    }
    q
  }

  /** A positive `b` times a positive whole number is at least `b`. */
  lemma {:induction false} MulAtLeast(b: int, d: int)
    requires b > 0
    ensures d >= 1 ==> b * d >= b
    decreases if d < 1 then 0 else d
  {
    if d > 1 {
      MulAtLeast(b, d - 1);
      assert b * d == b * (d - 1) + b;
    }
  }

  /** The rounded quotient stays inside any whole-number bounds that hold for
      the exact quotient. */
  lemma DivideHalfUpBetween(a: int, b: int, lo: int, hi: int)
    requires b > 0 && lo * b <= a <= hi * b
    ensures lo <= DivideHalfUp(a, b) <= hi
  {
    var q := DivideHalfUp(a, b);
    MulAtLeast(b, q - hi);
    MulAtLeast(b, lo - q);
    assert b * (q - hi) == b * q - b * hi;
    assert b * (lo - q) == b * lo - b * q;
  }

  /** Dividing an exact multiple needs no rounding. */
  lemma DivideHalfUpExact(n: int, b: int)
    requires b > 0
    ensures DivideHalfUp(n * b, b) == n
  {
    DivideHalfUpBetween(n * b, b, n, n);
  }
}
