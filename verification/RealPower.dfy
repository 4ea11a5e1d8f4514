/** Powers and limits of exact reals, as the forecasts need them. */
module RealPower {
  function Pow(a: real, n: nat): real {
    if n == 0 then 1.0 else a * Pow(a, n - 1)
  }

  lemma {:induction false} Cancel(x: real, y: real, c: real)
    requires c != 0.0 && x * c == y * c
    ensures x == y
  {
    assert (x - y) * c == 0.0;
  }

  lemma {:induction false} ProductSign(x: real, y: real)
    ensures x >= 0.0 && y >= 0.0 ==> x * y >= 0.0
    ensures x >= 0.0 && y <= 0.0 ==> x * y <= 0.0
    ensures x > 0.0 && y > 0.0 ==> x * y > 0.0
    ensures x > 0.0 && y < 0.0 ==> x * y < 0.0
  {
  }

  lemma {:induction false} TimesMonotone(x: real, y: real, c: real)
    requires x <= y && c >= 0.0
    ensures x * c <= y * c
  {
    assert (y - x) * c >= 0.0;
  }

  lemma {:induction false} PowRange(a: real, n: nat)
    requires 0.0 <= a <= 1.0
    ensures 0.0 <= Pow(a, n) <= 1.0
    ensures a > 0.0 ==> Pow(a, n) > 0.0
    ensures n > 0 ==> Pow(a, n) <= Pow(a, n - 1)
  {
    if n > 0 {
      PowRange(a, n - 1);
      TimesMonotone(a, 1.0, Pow(a, n - 1));
      ProductSign(a, Pow(a, n - 1));
    }
  }

  lemma {:induction false} PowOfProduct(a: real, b: real, n: nat)
    ensures Pow(a * b, n) == Pow(a, n) * Pow(b, n)
  {
    if n > 0 {
      PowOfProduct(a, b, n - 1);
      var p, q := Pow(a, n - 1), Pow(b, n - 1);
      assert (a * b) * (p * q) == (a * p) * (b * q);
    }
  }

  lemma {:induction false} PowOne(n: nat)
    ensures Pow(1.0, n) == 1.0
  {
    if n > 0 {
      PowOne(n - 1);
    }
  }

  lemma {:induction false} CancelLess(x: real, y: real, c: real)
    requires c > 0.0 && x * c < y * c
    ensures x < y
  {
    if x >= y {
      TimesMonotone(y, x, c);
    }
  }

  lemma {:induction false} CancelAtMost(x: real, y: real, c: real)
    requires c > 0.0 && x * c <= y * c
    ensures x <= y
  {
    ProductSign(c, x - y);
    assert c * (x - y) == x * c - y * c;
  }

  /** (1 + d)^n is at least 1 + n d. */
  lemma {:induction false} Bernoulli(d: real, n: nat)
    requires d >= 0.0
    ensures Pow(1.0 + d, n) >= 1.0 + n as real * d
  {
    if n > 0 {
      Bernoulli(d, n - 1);
      var p, x := Pow(1.0 + d, n - 1), 1.0 + (n - 1) as real * d;
      TimesMonotone(x, p, 1.0 + d);
      ProductSign((n - 1) as real, d * d);
      ProductSign(d, d);
      assert x * (1.0 + d) == 1.0 + n as real * d + (n - 1) as real * (d * d);
    }
  }

  lemma {:induction false} Archimedes(x: real) returns (n: nat)
    ensures n as real > x
  {
    n := if x < 0.0 then 0 else x.Floor + 1;
  }

  /** Powers of a number below one fall below every positive bound. */
  lemma {:induction false} PowVanishes(a: real, eps: real) returns (n: nat)
    requires 0.0 <= a < 1.0 && eps > 0.0
    ensures Pow(a, n) < eps
  {
    if a == 0.0 {
      n := 1;
      assert Pow(a, 1) == a * Pow(a, 0);
    } else {
      var b := 1.0 / a;
      assert a * b == 1.0;
      var d := b - 1.0;
      assert d > 0.0 by {
        if b <= 1.0 {
          TimesMonotone(b, 1.0, a);
        }
      }
      n := Archimedes((1.0 / eps) / d);
      PowReciprocal(a, b, eps, n);
    }
  }

  lemma {:induction false} PowReciprocal(a: real, b: real, eps: real, n: nat)
    requires 0.0 < a < 1.0 && b > 1.0 && a * b == 1.0 && eps > 0.0
    requires n as real > (1.0 / eps) / (b - 1.0)
    ensures Pow(a, n) < eps
  {
    var d, m := b - 1.0, n as real;
    var q := (1.0 / eps) / d;
    assert q * d == 1.0 / eps;
    TimesMonotone(q, m, d);
    Bernoulli(d, n);
    assert 1.0 + d == b;
    assert Pow(b, n) > 1.0 / eps;
    PowOfProduct(a, b, n);
    PowOne(n);
    PowRange(a, n);
    var p, r := Pow(a, n), Pow(b, n);
    assert p * r == 1.0;
    var e := 1.0 / eps;
    assert e * eps == 1.0;
    ProductSign(r - e, eps);
    assert (r - e) * eps == eps * r - e * eps;
    CancelLess(p, eps, r);
  }

  /** The sign of a power of a negative factor. */
  lemma {:induction false} PowSign(a: real, n: nat)
    requires a < 0.0
    ensures n % 2 == 0 ==> Pow(a, n) > 0.0
    ensures n % 2 == 1 ==> Pow(a, n) < 0.0
  {
    if n > 0 {
      PowSign(a, n - 1);
      ProductSign(-a, Pow(a, n - 1));
      assert a * Pow(a, n - 1) == -(-a * Pow(a, n - 1));
    }
  }

  /** Powers of a factor between -1 and 0 stay closer to 0 than the factor, from the square on. */
  lemma {:induction false} PowInside(a: real, n: nat)
    requires -1.0 < a < 0.0 && n >= 2
    ensures a < Pow(a, n) < -a
  {
    var p := Pow(a, n - 1);
    if n == 2 {
      assert p == a * Pow(a, 0) == a;
    } else {
      PowInside(a, n - 1);
    }
    assert Pow(a, n) == a * p;
    InsideStep(a, p);
  }

  lemma {:induction false} InsideStep(a: real, p: real)
    requires -1.0 < a < 0.0 && -1.0 < p < 1.0
    ensures a < a * p < -a
  {
    ProductSign(-a, 1.0 - p);
    ProductSign(-a, 1.0 + p);
    assert -a * (1.0 - p) == -a + a * p && -a * (1.0 + p) == -a - a * p;
  }

  /** Powers of -1. */
  lemma {:induction false} PowMinusOne(n: nat)
    ensures Pow(-1.0, n) == if n % 2 == 0 then 1.0 else -1.0
  {
    if n > 0 {
      PowMinusOne(n - 1);
    }
  }
}
