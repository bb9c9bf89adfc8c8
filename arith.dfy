/** Facts about floor division and remainder with positive divisors, the
    only kind the modelled code uses (where Python's `//` and `%` agree
    with Dafny's). */
module Arith {

  /** A quotient and remainder pair is determined by the dividend. */
  lemma DivModUnique(n: int, m: int, a: int, b: int)
    requires m > 0 && n == a * m + b && 0 <= b < m
    ensures n / m == a && n % m == b
  {
    var q := n / m;
    var r := n % m;
    assert (a - q) * m == r - b;
    if a > q {
      MulAtLeast(a - q, m);
      assert false;
    } else if a < q {
      MulAtLeast(q - a, m);
      assert false;
    }
  }

  lemma MulAtLeast(x: int, m: int)
    requires x >= 1 && m > 0
    ensures x * m >= m
  {
  }

  lemma MulBelow(r: int, a: int, b: int)
    requires 0 <= r < b && a > 0
    ensures a * r + a <= a * b
  {
    assert a * (b - r - 1) >= 0 by {
      MulNonNegative(a, b - r - 1);
    }
    assert a * (b - r - 1) == a * b - a * r - a;
  }

  lemma MulNonNegative(a: int, b: int)
    requires a >= 0 && b >= 0
    ensures a * b >= 0
  {
  }

  /** Dividing by `a` and then by `b` is dividing by `a * b`; the remainder
      by `a * b` is made of the two remainders. */
  lemma DivDiv(x: int, a: int, b: int)
    requires x >= 0 && a > 0 && b > 0
    ensures x / (a * b) == x / a / b
    ensures x % (a * b) == a * (x / a % b) + x % a
  {
    var q := x / a / b;
    var r2 := x / a % b;
    var r1 := x % a;
    assert x / a == b * q + r2;
    assert x == a * (x / a) + r1;
    assert x == (a * b) * q + (a * r2 + r1) by {
      assert a * (b * q + r2) == (a * b) * q + a * r2;
    }
    MulBelow(r2, a, b);
    MulNonNegative(a, r2);
    DivModUnique(x, a * b, q, a * r2 + r1);
  }

  /** A digit of a mixed-radix number read off a remainder: the remainder by
      `a * b`, divided by `a`, is the quotient by `a` modulo `b`; and it
      leaves the remainder by `a` unchanged. */
  lemma ModDiv(x: int, a: int, b: int)
    requires x >= 0 && a > 0 && b > 0
    ensures x % (a * b) / a == x / a % b
    ensures x % (a * b) % a == x % a
  {
    DivDiv(x, a, b);
    DivModUnique(x % (a * b), a, x / a % b, x % a);
  }

  lemma MulLeMono(a: int, b: int, c: int)
    requires a >= 0 && b <= c
    ensures a * b <= a * c
  {
    MulNonNegative(a, c - b);
    assert a * (c - b) == a * c - a * b;
  }

  /** A number below `a * b` divided by `a` is below `b`. */
  lemma DivBelow(x: int, a: int, b: int)
    requires x >= 0 && a > 0 && x < a * b
    ensures x / a < b
  {
    if x / a >= b {
      MulLeMono(a, b, x / a);
      assert false;
    }
  }
}
