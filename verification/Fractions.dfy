/** The facts about products and quotients of real numbers that the averages need. */
module Fractions {
  import DivMod

  lemma DivMul(a: real, b: real)
    requires b != 0.0
    ensures (a / b) * b == a
  {
  }

  lemma Cancel(x: real, y: real, v: real)
    requires v != 0.0 && x * v == y * v
    ensures x == y
  {
    DivMul(x * v, v);
    assert (x - y) * v == 0.0;
  }

  lemma PositiveMul(x: real, y: real)
    requires x > 0.0 && y > 0.0
    ensures x * y > 0.0
  {
  }

  lemma LeCancel(x: real, y: real, v: real)
    requires v > 0.0 && x * v <= y * v
    ensures x <= y
  {
    assert (x - y) * v == x * v - y * v;
    if x > y {
      PositiveMul(x - y, v);
    }
  }

  lemma Quotient(p: real, b: real, a: real)
    requires b != 0.0 && p * b == a
    ensures p == a / b
  {
    DivMul(a, b);
    Cancel(p, a / b, b);
  }

  lemma AddFractions(a: real, b: real, d: real)
    requires d != 0.0
    ensures a / d + b / d == (a + b) / d
  {
    DivMul(a, d);
    DivMul(b, d);
    assert (a / d + b / d) * d == (a / d) * d + (b / d) * d;
    Quotient(a / d + b / d, d, a + b);
  }

  lemma RatioLe(a: real, b: real, c: real, d: real)
    requires b > 0.0 && d > 0.0 && a * d <= c * b
    ensures a / b <= c / d
  {
    var x, y := a / b, c / d;
    DivMul(a, b);
    DivMul(c, d);
    assert x * (b * d) == (x * b) * d;
    assert y * (b * d) == (y * d) * b;
    PositiveMul(b, d);
    LeCancel(x, y, b * d);
  }

  lemma SwapDivisions(a: real, b: real, c: real)
    requires b > 0.0 && c > 0.0
    ensures a / b / c == a / c / b
  {
    var x, y := a / b / c, a / c / b;
    DivMul(a / b, c);
    DivMul(a / c, b);
    DivMul(a, b);
    DivMul(a, c);
    assert x * (b * c) == (x * c) * b;
    assert y * (b * c) == (y * b) * c;
    PositiveMul(b, c);
    Cancel(x, y, b * c);
  }

  lemma Bounded(d: real, n: real, eps: real)
    requires n > 0.0 && -(eps * n) <= d <= eps * n
    ensures -eps <= d / n <= eps
  {
    DivMul(d, n);
    LeCancel(d / n, eps, n);
    assert -eps * n == -(eps * n);
    LeCancel(-eps, d / n, n);
  }

  lemma CastMul(a: int, b: int)
    ensures (a * b) as real == a as real * b as real
  {
  }

  lemma LeCancelInt(x: int, y: int, d: int)
    requires d > 0 && x * d <= y * d
    ensures x <= y
  {
    assert (x - y) * d == x * d - y * d;
    if x > y {
      DivMod.MulAtLeast(x - y, d);
    }
  }

  lemma OneMore(eps: real, n: nat)
    requires n >= 1
    ensures eps * n as real == eps * (n - 1) as real + eps
  {
    assert n as real == (n - 1) as real + 1.0;
  }
}
