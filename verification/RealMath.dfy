/** The two numeric primitives the navigation kernel borrows from Python's `math`
    and `round`, stated over exact reals. */
module RealMath {

  function Abs(x: int): int { if x < 0 then -x else x }

  function Max(a: int, b: int): int { if a < b then b else a }

  function Min(a: int, b: int): int { if a < b then a else b }

  function Greater(a: real, b: real): real { if a < b then b else a }

  function Ceiling(x: real): int { -((-x).Floor) }

  /** What `math.sqrt` promises on nonnegative arguments, rounding left aside. */
  ghost predicate IsSqrt(sqrt: real -> real) {
    forall x: real {:trigger sqrt(x)} :: x >= 0.0 ==> sqrt(x) >= 0.0 && sqrt(x) * sqrt(x) == x
  }

  function Hypot(sqrt: real -> real, x: real, y: real): real {
    sqrt(x * x + y * y)
  }

  lemma SquareNonnegative(x: real)
    ensures x * x >= 0.0
  {
  }

  lemma HypotSquare(sqrt: real -> real, x: real, y: real)
    requires IsSqrt(sqrt)
    ensures Hypot(sqrt, x, y) >= 0.0
    ensures Hypot(sqrt, x, y) * Hypot(sqrt, x, y) == x * x + y * y
  {
    SquareNonnegative(x);
    SquareNonnegative(y);
  }

  lemma HypotZero(sqrt: real -> real)
    requires IsSqrt(sqrt)
    ensures Hypot(sqrt, 0.0, 0.0) == 0.0
  {
    var h := Hypot(sqrt, 0.0, 0.0);
    HypotSquare(sqrt, 0.0, 0.0);
    SquareZeroExactly(h);
  }

  lemma MultiplyMonotone(a: real, b: real, c: real, d: real)
    requires 0.0 <= a <= b && 0.0 <= c <= d
    ensures a * c <= b * d
  {
    assert a * c <= b * c;
    assert b * c <= b * d;
  }

  lemma ProductPositive(a: real, b: real)
    requires a > 0.0 && b > 0.0
    ensures a * b > 0.0
  {
  }

  /** A product has the sign of its other factor. */
  lemma ProductSign(a: real, b: real) returns (product: real)
    requires b > 0.0
    ensures product == a * b && (product >= 0.0 <==> a >= 0.0) && (product > 0.0 <==> a > 0.0)
  {
    product := a * b;
  }

  lemma ProductNonnegative(a: real, b: real) returns (product: real)
    requires a >= 0.0 && b >= 0.0
    ensures product == a * b && product >= 0.0
  {
    product := a * b;
  }

  lemma Scaled(a: real, b: real, product: real)
    requires a >= 0.0 && b >= 0.0 && product == a * b
    ensures product >= 0.0
    ensures a > 0.0 && b > 0.0 ==> product > 0.0
  {
  }

  lemma ZeroSquares(a: real, b: real)
    ensures a * a + b * b >= 0.0
    ensures a * a + b * b == 0.0 <==> a == 0.0 && b == 0.0
  {
    SquareZeroExactly(a);
    SquareZeroExactly(b);
  }

  lemma SquareZeroExactly(a: real)
    ensures a * a >= 0.0 && (a * a == 0.0 <==> a == 0.0)
  {
    if a > 0.0 {
      Scaled(a, a, a * a);
    } else if a < 0.0 {
      Scaled(-a, -a, a * a);
    }
  }

  lemma DivideProduct(k: real, r: real)
    requires r != 0.0
    ensures k * r / r == k
  {
    var q := k * r / r;
    assert q * r == k * r;
    assert (q - k) * r == 0.0;
  }

  /** Nonnegative numbers are ordered as their squares are. */
  lemma SquareOrder(a: real, b: real)
    requires b >= 0.0
    requires a * a <= b * b
    ensures a <= b
  {
    assert (a - b) * (a + b) == a * a - b * b;
    if a > b {
      ProductPositive(a - b, a + b);
    }
  }

  /** Cauchy's inequality in the plane. */
  lemma Cauchy(a: real, b: real, c: real, d: real, s: real, t: real)
    requires s >= 0.0 && t >= 0.0
    requires s * s == a * a + b * b && t * t == c * c + d * d
    ensures a * c + b * d <= s * t
  {
    var k := a * d - b * c;
    SquareNonnegative(k);
    var dot := a * c + b * d;
    assert dot * dot + k * k == (a * a + b * b) * (c * c + d * d) by {
      CauchyIdentity(a, b, c, d);
    }
    assert (s * t) * (s * t) == (s * s) * (t * t);
    assert s * t >= 0.0;
    SquareOrder(dot, s * t);
  }

  lemma CauchyIdentity(a: real, b: real, c: real, d: real)
    ensures (a * c + b * d) * (a * c + b * d) + (a * d - b * c) * (a * d - b * c)
         == (a * a + b * b) * (c * c + d * d)
  {
  }

  /** The triangle inequality for `math.hypot`. */
  lemma HypotTriangle(sqrt: real -> real, a: real, b: real, c: real, d: real)
    requires IsSqrt(sqrt)
    ensures Hypot(sqrt, a + c, b + d) <= Hypot(sqrt, a, b) + Hypot(sqrt, c, d)
  {
    var s, t, u := Hypot(sqrt, a, b), Hypot(sqrt, c, d), Hypot(sqrt, a + c, b + d);
    HypotSquare(sqrt, a, b);
    HypotSquare(sqrt, c, d);
    HypotSquare(sqrt, a + c, b + d);
    Cauchy(a, b, c, d, s, t);
    assert u * u == (a * a + b * b) + (c * c + d * d) + 2.0 * (a * c + b * d);
    assert (s + t) * (s + t) == s * s + t * t + 2.0 * (s * t);
    SquareOrder(u, s + t);
  }

  /** Python's `round` to an integer: halves go to the even neighbour. */
  function RoundHalfEven(x: real): int {
    var whole := x.Floor;
    var fraction := x - whole as real;
    if fraction < 0.5 || (fraction == 0.5 && whole % 2 == 0) then whole else whole + 1
  }

  /** Rounding moves a number by at most a half, and never past an integer. */
  lemma RoundHalfEvenNear(x: real)
    ensures -0.5 <= RoundHalfEven(x) as real - x <= 0.5
  {
  }

  /** Half-way between two integers it picks the even one. */
  lemma RoundHalfEvenTies(x: real)
    requires RoundHalfEven(x) as real - x == 0.5 || RoundHalfEven(x) as real - x == -0.5
    ensures RoundHalfEven(x) % 2 == 0
  {
  }

  lemma RoundHalfEvenOrder(x: real, y: real)
    requires x <= y
    ensures RoundHalfEven(x) <= RoundHalfEven(y)
  {
    RoundHalfEvenNear(x);
    RoundHalfEvenNear(y);
  }
}
