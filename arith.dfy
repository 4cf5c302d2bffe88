/** Integer facts and the JavaScript arithmetic operators whose behaviour on
    negative operands differs from Dafny's Euclidean `/` and `%`. */
module Arith {

  lemma MulAtLeast(d: int, n: int)
    requires d >= 1 && n > 0
    ensures d * n >= n
  {
    assert d * n == (d - 1) * n + n;
    assert (d - 1) * n >= 0;
  }

  /** Below `n` blocks of `z`, the block number is below `n`. */
  lemma DivBelow(i: int, n: int, z: int)
    requires z > 0 && 0 <= i < n * z
    ensures 0 <= i / z < n
  {
  }

  /** Quotient and remainder are unique. */
  lemma ModUnique(a: int, n: int, q: int, r: int)
    requires n > 0 && 0 <= r < n && a == q * n + r
    ensures a % n == r && a / n == q
  {
    var q2, r2 := a / n, a % n;
    assert a == q2 * n + r2;
    assert (q - q2) * n == r2 - r by {
      assert q * n - q2 * n == (q - q2) * n;
    }
    if q > q2 {
      MulAtLeast(q - q2, n);
    } else if q < q2 {
      MulAtLeast(q2 - q, n);
    }
  }

  /** Numbers that differ by a multiple of `n` have the same residue. */
  lemma ModCongruent(a: int, b: int, n: int)
    requires n > 0 && (a - b) % n == 0
    ensures a % n == b % n
  {
    var k := (a - b) / n;
    assert a - b == k * n;
    assert a == (a / n) * n + a % n;
    assert b == (a / n - k) * n + a % n by {
      assert (a / n - k) * n == (a / n) * n - k * n;
    }
    ModUnique(b, n, a / n - k, a % n);
  }

  /** The residue of `-s` complements that of `s`. */
  lemma NegMod(s: int, n: int)
    requires n > 0
    ensures (-s) % n == if s % n == 0 then 0 else n - s % n
  {
    var e := s % n;
    var q := s / n;
    assert s == q * n + e;
    if e == 0 {
      assert -s == (-q) * n + 0;
      ModUnique(-s, n, -q, 0);
    } else {
      assert -s == (-q - 1) * n + (n - e) by {
        assert (-q - 1) * n == -(q * n) - n;
      }
      ModUnique(-s, n, -q - 1, n - e);
    }
  }

  /** JavaScript's `a % n` for n > 0: truncating, so the remainder takes the
      sign of `a`, and it differs from `a` by a multiple of `n`. */
  function JsRem(a: int, n: int): (r: int)
    requires n > 0
    ensures -n < r < n
    ensures a >= 0 ==> r >= 0
    ensures a < 0 ==> r <= 0
    ensures (a - r) % n == 0
  {
    if a >= 0 then
      ModUnique(a - a % n, n, a / n, 0);
      a % n
    else
      var m := -a;
      assert m == (m / n) * n + m % n;
      assert a + m % n == (-(m / n)) * n;
      ModUnique(a + m % n, n, -(m / n), 0);
      -(m % n)
  }

  function Abs(x: int): nat {
    if x < 0 then -x else x
  }

  /** `n * z` by repeated addition. */
  function Times(n: nat, z: nat): nat {
    if n == 0 then 0 else z + Times(n - 1, z)
  }

  lemma {:induction false} TimesIsMul(n: nat, z: nat)
    ensures Times(n, z) == n * z
  {
    if n > 0 {
      TimesIsMul(n - 1, z);
      assert n * z == z + (n - 1) * z;
    }
  }

  /** `i / z` by repeated subtraction. */
  function Quot(i: nat, z: nat): nat
    requires z > 0
    decreases i
  {
    if i < z then 0 else 1 + Quot(i - z, z)
  }

  lemma {:induction false} QuotIsDiv(i: nat, z: nat)
    requires z > 0
    ensures Quot(i, z) == i / z
    decreases i
  {
    if i < z {
      ModUnique(i, z, 0, i);
    } else {
      QuotIsDiv(i - z, z);
      var q, r := (i - z) / z, (i - z) % z;
      assert i - z == q * z + r;
      assert i == (q + 1) * z + r;
      ModUnique(i, z, q + 1, r);
    }
  }

  lemma {:induction false} QuotBelow(i: nat, n: nat, z: nat)
    requires i < Times(n, z)
    ensures z > 0 && Quot(i, z) < n
    decreases n
  {
    if z == 0 {
      TimesZero(n);
    } else if i >= z {
      QuotBelow(i - z, n - 1, z);
    }
  }

  lemma {:induction false} TimesZero(n: nat)
    ensures Times(n, 0) == 0
  {
    if n > 0 { TimesZero(n - 1); }
  }

  lemma MulNonNeg(a: real, b: real)
    requires a >= 0.0 && b >= 0.0
    ensures a * b >= 0.0
  {
  }

  /** The identity on reals. A square is written `a * Id(a)` so that the
      solver treats it as a product of two factors. */
  function Id(x: real): real {
    x
  }

  /** `a` squared. */
  function Sq(a: real): real {
    a * Id(a)
  }

  lemma MulPos(a: real, b: real)
    requires a > 0.0 && b > 0.0
    ensures a * b > 0.0
  {
  }

  /** A factor in [0, 1] does not enlarge a non-negative number. */
  lemma MulAtMost(a: real, b: real)
    requires 0.0 <= a <= 1.0 && b >= 0.0
    ensures 0.0 <= a * b <= b
  {
    MulNonNeg(a, b);
    MulNonNeg(1.0 - a, b);
  }

  lemma SqNonNeg(a: real)
    ensures Sq(a) >= 0.0
  {
    if a > 0.0 {
      MulPos(a, Id(a));
    } else if a < 0.0 {
      MulPos(-a, -Id(a));
    }
  }

  lemma SqPos(a: real)
    requires a != 0.0
    ensures Sq(a) > 0.0
  {
    if a > 0.0 {
      MulPos(a, Id(a));
    } else {
      MulPos(-a, -Id(a));
    }
  }

  /** Squaring maps [0, 1] into itself. */
  lemma SqUnit(a: real)
    requires 0.0 <= a <= 1.0
    ensures 0.0 <= Sq(a) <= 1.0
  {
    MulAtMost(Id(a), a);
    assert a * Id(a) == Id(a) * a;
  }
}
