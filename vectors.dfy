/**
 * Integer stand-in for the engine's 2-D vector (`Vec2`). World coordinates
 * are integers in this model, and every length the game compares against a
 * threshold is compared squared, so no square root is taken on the way.
 */
module Vectors {
  datatype Vec2 = Vec2(x: int, y: int)

  const ZERO: Vec2 := Vec2(0, 0)

  function Add(a: Vec2, b: Vec2): Vec2 { Vec2(a.x + b.x, a.y + b.y) }

  function Sub(a: Vec2, b: Vec2): Vec2 { Vec2(a.x - b.x, a.y - b.y) }

  function Square(n: int): nat { if n < 0 then (-n) * (-n) else n * n }

  /** `v.length()` squared. */
  function LengthSq(v: Vec2): nat { Square(v.x) + Square(v.y) }

  /** `a.distance(b)` squared. */
  function DistSq(a: Vec2, b: Vec2): nat { LengthSq(Sub(a, b)) }

  function Abs(n: int): nat { if n < 0 then -n else n }

  /** Largest r with r * r <= n: `sqrt(n)` truncated to an integer. */
  function Isqrt(n: nat): (r: nat)
    ensures r * r <= n < (r + 1) * (r + 1)
    decreases n
  {
    if n < 4 then (if n == 0 then 0 else 1)
    else
      var h := Isqrt(n / 4);
      IsqrtStep(n, h);
      if (2 * h + 1) * (2 * h + 1) <= n then 2 * h + 1 else 2 * h
  }

  /** From the root h of n / 4, the root of n is 2h or 2h + 1. */
  lemma IsqrtStep(n: nat, h: nat)
    requires h * h <= n / 4 < (h + 1) * (h + 1)
    ensures (2 * h) * (2 * h) <= n < (2 * h + 2) * (2 * h + 2)
  {
    var m := n / 4;
    assert n == 4 * m + n % 4;
    assert (2 * h) * (2 * h) == 4 * (h * h);
    assert (2 * h + 2) * (2 * h + 2) == 4 * ((h + 1) * (h + 1));
    assert m + 1 <= (h + 1) * (h + 1);
  }

  /** `(a / d).round()` for a positive divisor: the nearest integer, halves away from zero. */
  function RoundDiv(a: int, d: int): int
    requires d > 0
  {
    if a >= 0 then (2 * a + d) / (2 * d) else -((2 * (-a) + d) / (2 * d))
  }

  // ---------------------------------------------------------------------------
  // Products with a square root, decided on integers

  /** `a * sqrt(n) < b`, decided from the signs and the squares. */
  predicate RootScaledBelow(a: int, n: nat, b: int)
  {
    if a < 0 then b > 0 || a * a * n > b * b
    else b > 0 && a * a * n < b * b
  }

  /** `a * sqrt(n) == b`. */
  predicate RootScaledEqual(a: int, n: nat, b: int)
  {
    a * a * n == b * b && (b < 0 ==> a < 0) && (b > 0 ==> a > 0)
  }

  /** `a * sqrt(n) <= b`. */
  predicate RootScaledAtMost(a: int, n: nat, b: int)
  {
    RootScaledBelow(a, n, b) || RootScaledEqual(a, n, b)
  }

  /** On a perfect square `m * m` both tests are the plain comparisons of `a * m` with `b`. */
  lemma {:induction false} RootScaledExact(a: int, m: nat, b: int)
    ensures RootScaledBelow(a, m * m, b) <==> a * m < b
    ensures RootScaledEqual(a, m * m, b) <==> a * m == b
  {
    var x := a * m;
    assert a * a * (m * m) == x * x;
    if a < 0 {
      assert x <= 0 by { NonNegProduct(-a, m); }
      if b < 0 {
        SquareLess(-x, -b);
        SquareLess(-b, -x);
      } else if b == 0 {
        SquareZero(x);
      }
    } else {
      assert x >= 0 by { NonNegProduct(a, m); }
      if b > 0 {
        SquareLess(x, b);
        SquareLess(b, x);
      } else if b == 0 {
        SquareZero(x);
      }
    }
  }

  /** Against 0, a positive root leaves only the sign of `a`. */
  lemma RootScaledZero(a: int, n: nat)
    requires 0 < n
    ensures RootScaledBelow(a, n, 0) <==> a < 0
    ensures RootScaledEqual(a, n, 0) <==> a == 0
  {
    SquareZero(a);
    if a != 0 {
      PositiveProduct(a * a, n);
    }
  }

  /** Lowering the factor of a positive root makes the product strictly smaller. */
  lemma {:induction false} RootScaledMono(a0: int, a: int, n: nat, b: int)
    requires 0 < n && a0 < a && RootScaledAtMost(a, n, b)
    ensures RootScaledBelow(a0, n, b)
  {
    if a0 < 0 <= a {
      if b == 0 {
        assert a0 * a0 * n > 0 by { SquareZero(a0); PositiveProduct(a0 * a0, n); }
      }
    } else if 0 <= a0 {
      assert a * a * n > 0 by { SquareZero(a); PositiveProduct(a * a, n); }
      SquareLess(a0, a);
      MulRight(a0 * a0, a * a, n);
    } else {
      SquareLess(-a, -a0);
      assert (-a) * (-a) == a * a && (-a0) * (-a0) == a0 * a0;
      MulRight(a * a, a0 * a0, n);
    }
  }

  lemma NonNegProduct(u: int, v: int)
    requires 0 <= u && 0 <= v
    ensures 0 <= u * v
  {
  }

  lemma PositiveProduct(u: int, v: int)
    requires 0 < u && 0 < v
    ensures 0 < u * v
  {
  }

  lemma MulRight(u: int, v: int, n: int)
    requires u < v && 0 < n
    ensures u * n < v * n
  {
    assert v * n - u * n == (v - u) * n;
    PositiveProduct(v - u, n);
  }

  /** A positive factor keeps order and equality. */
  lemma ScaleCompare(u: int, v: int, m: int)
    requires 0 < m
    ensures u * m < v * m <==> u < v
    ensures u * m == v * m <==> u == v
  {
    if u < v { MulRight(u, v, m); }
    if v < u { MulRight(v, u, m); }
  }

  /** Squaring is strictly monotone on the non-negative integers. */
  lemma SquareLess(x: int, y: int)
    requires 0 <= x && 0 <= y
    ensures x < y <==> x * x < y * y
  {
    if x < y {
      assert x * x <= x * y < y * y;
    } else {
      assert y * y <= y * x <= x * x;
    }
  }

  lemma SquareZero(x: int)
    ensures x * x == 0 <==> x == 0
  {
    if x > 0 { assert x * x > 0; }
    if x < 0 { assert x * x == (-x) * (-x) > 0; }
  }
}
