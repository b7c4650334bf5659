/** The integer conversions of C++ that the core relies on, where they differ from Dafny's. */
module CppArith {

  /** `(int) r` for a floating-point `r`: rounds toward zero (Dafny's `r.Floor` rounds down). */
  function Trunc(r: real): (n: int)
    ensures 0.0 <= r ==> 0 <= n && n as real <= r < n as real + 1.0
    ensures r < 0.0 ==> n <= 0 && n as real - 1.0 < r <= n as real
  {
    if r >= 0.0 then r.Floor else -((-r).Floor)
  }

  /** `a / d` on C++ `int`s with a positive divisor: the quotient rounds toward zero, so the
      remainder takes the sign of `a` (Dafny's `/` keeps the remainder non-negative). */
  function Quot(a: int, d: int): (q: int)
    requires d > 0
    ensures 0 <= a ==> 0 <= a - d * q < d
    ensures a < 0 ==> -d < a - d * q <= 0
  {
    if a >= 0 then a / d else -((-a) / d)
  }

  /** Converting a whole number to float and back is exact. */
  lemma TruncOfInt(n: int)
    ensures Trunc(n as real) == n
  {
  }

  /** Truncation agrees with flooring on non-negative and on whole values, and is one above it
      on every negative non-integer. */
  lemma TruncVersusFloor(r: real)
    ensures 0.0 <= r || r == r.Floor as real ==> Trunc(r) == r.Floor
    ensures r < 0.0 && r != r.Floor as real ==> Trunc(r) == r.Floor + 1
  {
    if r < 0.0 {
      var n := Trunc(r);
      assert n as real - 1.0 < r <= n as real;
      if r == r.Floor as real {
        assert r.Floor == n;
      } else {
        assert (n - 1) as real < r < n as real;
      }
    }
  }

  /** A non-zero multiple of a positive `d` is at least `d` away from 0. */
  lemma MultipleOutside(d: int, x: int)
    requires d > 0
    ensures x >= 1 ==> d * x >= d
    ensures x <= -1 ==> d * x <= -d
  {
    if x >= 1 {
      assert d * x == d + d * (x - 1);
    } else if x <= -1 {
      assert d * x == -d + d * (x + 1);
    }
  }

  /** Euclidean division is the unique split with a non-negative remainder below `d`. */
  lemma DivUnique(a: int, d: int, k: int, m: int)
    requires d > 0 && 0 <= m < d && a == d * k + m
    ensures a / d == k && a % d == m
  {
    assert d * (k - a / d) == a % d - m;
    MultipleOutside(d, k - a / d);
  }

  /** C++ division agrees with Dafny's Euclidean `/` when the dividend is non-negative or a
      multiple of the divisor, and is one above it for every other negative dividend. */
  lemma QuotVersusDiv(a: int, d: int)
    requires d > 0
    ensures 0 <= a || a % d == 0 ==> Quot(a, d) == a / d
    ensures a < 0 && a % d != 0 ==> Quot(a, d) == a / d + 1
  {
    if a < 0 {
      var b := -a;
      var k, m := b / d, b % d;
      assert b == d * k + m && 0 <= m < d;
      assert Quot(a, d) == -k;
      if m == 0 {
        DivUnique(a, d, -k, 0);
      } else {
        assert a == d * (-k - 1) + (d - m);
        DivUnique(a, d, -k - 1, d - m);
      }
    }
  }
}
