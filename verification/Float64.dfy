/**
 Division of two positive int32 numbers in binary64 arithmetic. Every finite number of the
 format is a whole multiple of 2^-1074, so a number is modelled by that multiple and all
 comparisons are exact; the quotient is a number of the format with none nearer to the true
 one (section 4.3.1 of IEEE 754-2019).
 */
module Float64 {
  import opened Wrappers
  import opened Arithmetic

  /** The least exponent is -1074; the largest shift of a significand leads to 2^971. */
  function UnitExponent(): (e: nat)
    ensures e >= 83
  {
    1074
  }

  function LargestShift(): (e: nat)
    ensures e == UnitExponent() + 971
  {
    2045
  }

  /** units * 2^-1074 */
  datatype Float64 = Float64(units: int)

  /** Units per one: the number n is Float64(n * One()). */
  function One(): (p: int)
    ensures p >= 1
  {
    Pow2(UnitExponent())
  }

  /** m * 2^shift units, with a significand below 2^53. */
  ghost predicate IsFloatWith(f: Float64, m: int, shift: nat) {
    -Pow2(53) < m < Pow2(53) && shift <= LargestShift() && f.units == m * Pow2(shift)
  }

  ghost predicate IsFloat64(f: Float64) {
    exists m: int, shift: nat :: IsFloatWith(f, m, shift)
  }

  function Abs(x: int): (r: nat)
    ensures r == x || r == -x
  {
    if x < 0 then -x else x
  }

  /** b times the distance between a/b and f, in units. */
  function Distance(a: int, b: int, f: Float64): nat {
    Abs(a * One() - f.units * b)
  }

  /** `q` is the quotient a/b rounded to nearest, whatever the rule for ties. */
  ghost predicate RoundsTo(a: int, b: int, q: Float64) {
    IsFloat64(q) && forall f :: IsFloat64(f) ==> Distance(a, b, q) <= Distance(a, b, f)
  }

  /** Conversion to int32 of a non-negative number: the fraction is cut off. */
  function Truncate(f: Float64): int {
    f.units / One()
  }

  /** f > n for an integer n. */
  predicate Exceeds(f: Float64, n: int) {
    f.units > n * One()
  }

  // ---- arithmetic ----

  lemma Pow2Values()
    ensures Pow2(31) == 0x8000_0000 && Pow2(33) == 0x2_0000_0000
    ensures Pow2(52) == 0x10_0000_0000_0000 && Pow2(53) == 0x20_0000_0000_0000
  {
    assert Pow2(7) == 128;
    assert Pow2(8) == 256;
    Pow2Split(8, 8);
    Pow2Split(8, 16);
    Pow2Split(24, 7);
    Pow2Split(31, 2);
    Pow2Split(31, 21);
    Pow2Split(7, 14);
    Pow2Split(7, 7);
  }

  lemma MulLess(x: int, y: int, c: int)
    requires c > 0
    ensures x < y <==> x * c < y * c
    ensures x == y <==> x * c == y * c
  {
    if x < y {
      assert (y - x) * c > 0;
    } else if x > y {
      assert (x - y) * c > 0;
    }
  }

  lemma AbsScaled(x: int, c: nat)
    ensures Abs(x * c) == Abs(x) * c
  {
    if x < 0 {
      assert -x * c >= 0;
    } else {
      assert x * c >= 0;
    }
  }

  lemma Regroup(a: int, p: int, u: int, j: int, b: int)
    ensures a * (p * u) - j * u * b == (a * p - j * b) * u
  {
    assert a * (p * u) == a * p * u;
    assert j * u * b == j * b * u;
  }

  /** Distance seen on a coarser grid: f is j * 2^(1074 - s) units. */
  lemma DistanceOnGrid(a: int, b: int, j: int, s: nat, f: Float64)
    requires s <= UnitExponent() && f.units == j * Pow2(UnitExponent() - s)
    ensures Distance(a, b, f) == Abs(a * Pow2(s) - j * b) * Pow2(UnitExponent() - s)
  {
    var p, u := Pow2(s), Pow2(UnitExponent() - s);
    Pow2Split(s, UnitExponent() - s);
    Regroup(a, p, u, j, b);
    AbsScaled(a * p - j * b, u);
  }

  // ---- the quotient, computed ----

  /** a/b is 2^52 or more at scale 2^s. */
  predicate IsFull(a: int, b: int, s: nat) {
    b * Pow2(52) <= a * Pow2(s)
  }

  /** The least scale that brings a/b to 2^52 or more. */
  function Scale(a: int, b: int, s: nat): (r: nat)
    requires s <= 83 && IsFull(a, b, 83)
    requires s > 0 ==> !IsFull(a, b, s - 1)
    ensures r <= 83 && IsFull(a, b, r)
    ensures r > 0 ==> !IsFull(a, b, r - 1)
    decreases 83 - s
  {
    if s == 83 || IsFull(a, b, s) then s else Scale(a, b, s + 1)
  }

  /** n/d to the nearest integer, ties to even. */
  function RoundDiv(n: int, d: int): int
    requires n >= 0 && d >= 1
  {
    var q, r := n / d, n % d;
    if 2 * r < d || (2 * r == d && q % 2 == 0) then q else q + 1
  }

  lemma RoundDivNearest(n: int, d: int, j: int)
    requires n >= 0 && d >= 1
    ensures Abs(n - RoundDiv(n, d) * d) <= Abs(n - j * d)
    ensures n / d <= RoundDiv(n, d) <= n / d + 1
  {
    var q, r, m := n / d, n % d, RoundDiv(n, d);
    Remainder(n, d);
    Steps(q, j, d);
    Steps(q, m, d);
    Nearest(n, d, q * d, r, m * d, j * d);
  }

  lemma Steps(q: int, j: int, d: int)
    requires d >= 1
    ensures j <= q ==> j * d <= q * d
    ensures j > q ==> j * d >= q * d + d
    ensures j == q + 1 ==> j * d == q * d + d
  {
    assert (q + 1) * d == q * d + d;
    if j <= q {
      Scaled(j, q, d);
    } else {
      Scaled(q + 1, j, d);
    }
  }

  /** Between the multiples `low` and `low + d` of d, `m` is the nearer one and `j` any multiple. */
  lemma Nearest(n: int, d: int, low: int, r: int, m: int, j: int)
    requires n == low + r && 0 <= r < d
    requires (m == low && 2 * r <= d) || (m == low + d && 2 * r >= d)
    requires j <= low || j >= low + d
    ensures Abs(n - m) <= Abs(n - j)
  {
  }

  /** b * y <= x * y == z <= a * z. */
  lemma Chain(a: int, b: int, x: int, y: int, z: int)
    requires a >= 1 && b <= x && y >= 0 && z >= 0 && z == x * y
    ensures b * y <= a * z
  {
    Scaled(b, x, y);
    Scaled(1, a, z);
  }

  lemma ScaleSuffices(a: int, b: int)
    requires 1 <= a && b <= MAX_INT32
    ensures b * Pow2(52) <= a * Pow2(83)
  {
    Pow2Values();
    Pow2Split(31, 52);
    Chain(a, b, Pow2(31), Pow2(52), Pow2(83));
  }

  /** `float64(a) / float64(b)`; both conversions are exact. */
  function Quotient(a: int, b: int): Float64
    requires 1 <= a <= MAX_INT32 && 1 <= b <= MAX_INT32
  {
    ScaleSuffices(a, b);
    Rounded(a, b, Scale(a, b, 0))
  }

  /** The multiple of 2^-s nearest to a/b. */
  function Rounded(a: int, b: int, s: nat): Float64
    requires a >= 1 && b >= 1 && s <= 83
  {
    GridPoint(RoundDiv(a * Pow2(s), b), s)
  }

  /** At scale 2^s the quotient has all 53 bits. */
  ghost predicate Reaches(a: int, b: int, s: nat) {
    b >= 1 && Pow2(52) <= a * Pow2(s) / b
  }

  /** The number j * 2^-s. */
  function GridPoint(j: int, s: nat): Float64
    requires s <= 83
  {
    Float64(j * Pow2(UnitExponent() - s))
  }

  // ---- it is nearest ----

  /** The scaled quotient lies between 2^52 and 2^53. */
  lemma ScaledBounds(a: int, b: int)
    requires 1 <= a <= MAX_INT32 && 1 <= b && b * Pow2(52) <= a * Pow2(83)
    ensures var s := Scale(a, b, 0); Reaches(a, b, s) && a * Pow2(s) / b < 2 * Pow2(52)
  {
    Pow2Values();
    var s, lo := Scale(a, b, 0), Pow2(52);
    var n := a * Pow2(s);
    Scaled(1, b, lo);
    if s > 0 {
      Doubled(a, Pow2(s), Pow2(s - 1));
    }
    Bracket(n, b, lo);
  }

  lemma Doubled(a: int, x: int, y: int)
    requires x == 2 * y
    ensures a * x == 2 * (a * y)
  {
  }

  lemma Bracket(n: int, b: int, lo: int)
    requires b >= 1 && lo >= 0 && b * lo <= n < 2 * (b * lo)
    ensures lo <= n / b < 2 * lo
  {
    Divide(n, b, lo);
    Divide(n, b, 2 * lo);
    assert 2 * lo * b == 2 * (b * lo);
  }

  lemma QuotientIsFloat(a: int, b: int)
    requires 1 <= a <= MAX_INT32 && 1 <= b <= MAX_INT32
    ensures IsFloat64(Quotient(a, b))
  {
    ScaleSuffices(a, b);
    ScaledBounds(a, b);
    var s := Scale(a, b, 0);
    var n := a * Pow2(s);
    RoundDivNearest(n, b, 0);
    GridPointIsFloat(RoundDiv(n, b), s);
  }

  lemma GridPointIsFloat(m: int, s: nat)
    requires s <= 83 && 0 <= m <= 2 * Pow2(52)
    ensures IsFloat64(GridPoint(m, s))
  {
    var u := UnitExponent() - s;
    assert Pow2(53) == 2 * Pow2(52);
    if m < Pow2(53) {
      assert IsFloatWith(GridPoint(m, s), m, u);
    } else {
      assert m * Pow2(u) == Pow2(52) * Pow2(u + 1) by {
        Doubled(Pow2(52), Pow2(u + 1), Pow2(u));
        Associate(2, Pow2(52), Pow2(u));
      }
      assert IsFloatWith(GridPoint(m, s), Pow2(52), u + 1);
    }
  }

  /** The computed quotient is correctly rounded. */
  lemma QuotientRounds(a: int, b: int)
    requires 1 <= a <= MAX_INT32 && 1 <= b <= MAX_INT32
    ensures RoundsTo(a, b, Quotient(a, b))
  {
    QuotientIsFloat(a, b);
    ScaleSuffices(a, b);
    ScaledBounds(a, b);
    var s := Scale(a, b, 0);
    forall f | IsFloat64(f) ensures Distance(a, b, Quotient(a, b)) <= Distance(a, b, f) {
      NoneNearer(a, b, s, f);
    }
  }

  lemma NoneNearer(a: int, b: int, s: nat, f: Float64)
    requires a >= 1 && b >= 1 && s <= 83 && IsFloat64(f)
    requires Reaches(a, b, s)
    ensures Distance(a, b, Rounded(a, b, s)) <= Distance(a, b, f)
  {
    var m: int, shift: nat :| IsFloatWith(f, m, shift);
    if shift >= UnitExponent() - s {
      OnGrid(f, m, s, shift);
      NearestGridPoint(a, b, s, m * Pow2(shift - (UnitExponent() - s)));
    } else {
      BelowGrid(f, m, s, shift);
      NearerThanSmall(a, b, s, f);
    }
  }

  lemma NearerThanSmall(a: int, b: int, s: nat, f: Float64)
    requires a >= 1 && b >= 1 && s <= 83 && f.units <= GridPoint(Pow2(52), s).units
    requires Reaches(a, b, s)
    ensures Distance(a, b, Rounded(a, b, s)) <= Distance(a, b, f)
  {
    NearestGridPoint(a, b, s, Pow2(52));
    GridPointBelow(a, b, s, Pow2(52));
    Farther(a, b, GridPoint(Pow2(52), s), f);
  }

  /** Of all multiples of 2^-s the computed one is nearest. */
  lemma NearestGridPoint(a: int, b: int, s: nat, j: int)
    requires a >= 1 && b >= 1 && s <= 83
    ensures Distance(a, b, Rounded(a, b, s)) <= Distance(a, b, GridPoint(j, s))
  {
    var n := a * Pow2(s);
    var q := RoundDiv(n, b);
    DistanceOnGrid(a, b, j, s, GridPoint(j, s));
    DistanceOnGrid(a, b, q, s, GridPoint(q, s));
    RoundDivNearest(n, b, j);
    Scaled(Abs(n - q * b), Abs(n - j * b), Pow2(UnitExponent() - s));
  }

  lemma OnGrid(f: Float64, m: int, s: nat, shift: nat)
    requires s <= 83 && shift >= UnitExponent() - s && f.units == m * Pow2(shift)
    ensures f == GridPoint(m * Pow2(shift - (UnitExponent() - s)), s)
  {
    var u := UnitExponent() - s;
    Pow2Split(shift - u, u);
    Associate(m, Pow2(shift - u), Pow2(u));
  }

  /** A number off the grid is smaller than 2^52 grid steps. */
  lemma BelowGrid(f: Float64, m: int, s: nat, shift: nat)
    requires s <= 83 && shift < UnitExponent() - s && m < Pow2(53) && f.units == m * Pow2(shift)
    ensures f.units <= GridPoint(Pow2(52), s).units
  {
    var u := UnitExponent() - s;
    Pow2Values();
    Pow2Split(u - shift - 1, shift + 1);
    Scaled(m, Pow2(53), Pow2(shift));
    Scaled(1, Pow2(u - shift - 1), Pow2(shift + 1));
  }

  /** A grid point not above the scaled quotient is not above the quotient. */
  lemma GridPointBelow(a: int, b: int, s: nat, j: int)
    requires a >= 1 && b >= 1 && s <= 83 && j <= a * Pow2(s) / b
    ensures a * One() >= GridPoint(j, s).units * b
  {
    var p, u := Pow2(s), Pow2(UnitExponent() - s);
    Divide(a * p, b, j);
    Pow2Split(s, UnitExponent() - s);
    Regroup(a, p, u, j, b);
    Scaled(0, a * p - j * b, u);
  }

  /** Going down from a number below the quotient leads away from it. */
  lemma Farther(a: int, b: int, g: Float64, f: Float64)
    requires b >= 1 && f.units <= g.units && g.units * b <= a * One()
    ensures Distance(a, b, g) <= Distance(a, b, f)
  {
    Scaled(f.units, g.units, b);
  }

  // ---- the divisibility test ----

  /** A scale between 2b and 4b. */
  lemma ScaleFor(b: int) returns (t: nat)
    requires 1 <= b <= MAX_INT32
    ensures t <= 33 && b < Pow2(t) <= 4 * b
  {
    Pow2Values();
    t := 0;
    while Pow2(t) <= b
      invariant t <= 33 && Pow2(t) <= 4 * b
      decreases 33 - t
    {
      t := t + 1;
    }
  }

  /**
   For every correctly rounded quotient, cutting off the fraction is integer division, and
   the test "greater than its own truncation" is the test for a remainder.
   */
  lemma DivisibilityTest(a: int, b: int, q: Float64)
    requires 1 <= a <= MAX_INT32 && 1 <= b <= MAX_INT32 && RoundsTo(a, b, q)
    ensures Truncate(q) == a / b
    ensures Exceeds(q, Truncate(q)) <==> a % b != 0
  {
    QuotientBound(a, b);
    if a % b == 0 {
      IntegerQuotient(a, b, q);
      MultipleRemainder(a / b, One());
    } else {
      BetweenIntegers(a, b, q);
      OneMore(a / b, One());
      DivisionUnique(q.units, One(), a / b);
    }
  }

  lemma QuotientBound(a: int, b: int)
    requires 1 <= a && 1 <= b
    ensures 0 <= a / b <= a && a == a / b * b + a % b
  {
    Divide(a, b, 0);
    Divide(a, b, a + 1);
    Scaled(1, b, a + 1);
  }

  lemma IntegerQuotient(a: int, b: int, q: Float64)
    requires 1 <= a <= MAX_INT32 && 1 <= b && a % b == 0 && RoundsTo(a, b, q)
    ensures q.units == a / b * One()
  {
    QuotientBound(a, b);
    var k, one := a / b, One();
    var f := Float64(k * one);
    Pow2Values();
    assert IsFloatWith(f, k, UnitExponent());
    Swap(k, b, one);
    assert Distance(a, b, f) == 0;
    assert a * one == q.units * b;
    MulLess(q.units, k * one, b);
  }

  /** With a remainder the rounded quotient stays strictly between the two nearest integers. */
  lemma BetweenIntegers(a: int, b: int, q: Float64)
    requires 1 <= a <= MAX_INT32 && 1 <= b <= MAX_INT32 && RoundsTo(a, b, q) && a % b != 0
    ensures a / b * One() < q.units < (a / b + 1) * One()
  {
    QuotientBound(a, b);
    var f := NearFloat(a, b);
    assert Distance(a, b, q) < One();
    Strictly(a, b, a / b, a % b, One(), q.units);
  }

  lemma Strictly(a: int, b: int, k: int, r: int, one: int, x: int)
    requires a == k * b + r && 1 <= r < b && one >= 1
    requires -one < a * one - x * b < one
    ensures k * one < x < (k + 1) * one
  {
    Distribute(k * b, r, one);
    Swap(k, b, one);
    Scaled(1, r, one);
    Steps(r, b, one);
    NextMultiple(k, one, b);
    assert k * one * b < x * b < (k + 1) * one * b;
    MulLess(k * one, x, b);
    MulLess(x, (k + 1) * one, b);
  }

  lemma NextMultiple(k: int, one: int, b: int)
    ensures (k + 1) * one * b == k * one * b + b * one
  {
    assert (k + 1) * one == k * one + one;
  }

  /** Some number of the format is less than 1/b away from a/b. */
  lemma NearFloat(a: int, b: int) returns (f: Float64)
    requires 1 <= a <= MAX_INT32 && 1 <= b <= MAX_INT32
    ensures IsFloat64(f) && Distance(a, b, f) < One()
  {
    var t := ScaleFor(b);
    var n := a * Pow2(t);
    SmallQuotient(a, b, Pow2(t));
    f := GridPoint(n / b, t);
    Pow2Values();
    assert IsFloatWith(f, n / b, UnitExponent() - t);
    GridDistance(a, b, t);
  }

  lemma GridDistance(a: int, b: int, t: nat)
    requires a >= 1 && b >= 1 && t <= 83 && b < Pow2(t)
    ensures Distance(a, b, GridPoint(a * Pow2(t) / b, t)) < One()
  {
    var p, u := Pow2(t), Pow2(UnitExponent() - t);
    var n := a * p;
    Scaled(0, a, p);
    DistanceOnGrid(a, b, n / b, t, GridPoint(n / b, t));
    Remainder(n, b);
    Pow2Split(t, UnitExponent() - t);
    MulLess(n % b, p, u);
  }

  lemma SmallQuotient(a: int, b: int, p: int)
    requires a >= 1 && b >= 1 && 0 <= p <= 4 * b
    ensures 0 <= a * p / b <= 4 * a
  {
    Scaled(p, 4 * b, a);
    Scaled(0, p, a);
    Divide(a * p, b, 0);
    Divide(a * p, b, 4 * a + 1);
    assert (4 * a + 1) * b == 4 * b * a + b;
  }
}
