/** Facts about products, quotients and int32 wrap-around that the solver does not find by itself. */
module Arithmetic {
  import opened Wrappers

  lemma OneMore(k: int, x: int)
    ensures (k + 1) * x == k * x + x
  {
  }

  lemma Scaled(x: int, y: int, c: int)
    requires x <= y && c >= 0
    ensures x * c <= y * c
  {
    assert (y - x) * c >= 0;
  }

  lemma ProductZero(n: int, x: int)
    ensures n * x == 0 <==> n == 0 || x == 0
  {
  }

  lemma Associate(x: int, y: int, z: int)
    ensures x * y * z == x * (y * z)
  {
  }

  lemma Swap(x: int, y: int, z: int)
    ensures x * y * z == x * z * y
  {
    Associate(x, y, z);
    Associate(x, z, y);
  }

  lemma Distribute(x: int, y: int, c: int)
    ensures (x + y) * c == x * c + y * c
    ensures (x - y) * c == x * c - y * c
  {
  }

  // ---- division ----

  lemma Remainder(x: int, d: int)
    requires d >= 1
    ensures x == x / d * d + x % d && 0 <= x % d < d
  {
  }

  /** Going to the quotient is rounding down. */
  lemma Divide(x: int, d: int, n: int)
    requires d >= 1
    ensures n * d <= x <==> n <= x / d
  {
    Remainder(x, d);
    if n <= x / d {
      Scaled(n, x / d, d);
    } else {
      Scaled(x / d + 1, n, d);
      OneMore(x / d, d);
    }
  }

  lemma DivisionUnique(x: int, d: int, q: int)
    requires d >= 1 && q * d <= x < q * d + d
    ensures x / d == q && x % d == x - q * d
  {
    Divide(x, d, q);
    OneMore(q, d);
    Divide(x, d, q + 1);
    Remainder(x, d);
  }

  lemma MultipleRemainder(k: int, d: int)
    requires d >= 1
    ensures k * d % d == 0 && k * d / d == k
  {
    DivisionUnique(k * d, d, k);
  }

  // ---- powers of two ----

  function Pow2(n: nat): (p: int)
    ensures p >= 1
  {
    if n == 0 then 1 else 2 * Pow2(n - 1)
  }

  lemma {:induction false} Pow2Split(a: nat, b: nat)
    ensures Pow2(a + b) == Pow2(a) * Pow2(b)
  {
    if a > 0 {
      Pow2Split(a - 1, b);
    }
  }

  // ---- int32 ----

  const WRAP := 0x1_0000_0000

  /** Wrapping around leaves a multiple of 2^32 behind, and nothing else. */
  lemma WrapMultiple(n: int, k: int)
    requires IsInt32(n - k * WRAP)
    ensures Wrap32(n) == n - k * WRAP
  {
    DivisionUnique(n + 0x8000_0000, WRAP, k);
  }

  lemma WrapSplit(n: int)
    ensures Wrap32(n) == n - (n + 0x8000_0000) / WRAP * WRAP
  {
    Remainder(n + 0x8000_0000, WRAP);
  }

  lemma WrapAdd(a: int, b: int)
    ensures Wrap32(Wrap32(a) + b) == Wrap32(a + b)
  {
    WrapSplit(a);
    WrapSplit(a + b);
    var j, k := (a + 0x8000_0000) / WRAP, (a + b + 0x8000_0000) / WRAP;
    Distribute(k, j, WRAP);
    WrapMultiple(Wrap32(a) + b, k - j);
  }

  lemma WrapBoth(a: int, b: int)
    ensures Wrap32(Wrap32(a) + Wrap32(b)) == Wrap32(a + b)
  {
    WrapAdd(a, Wrap32(b));
    WrapAdd(b, a);
  }
}
