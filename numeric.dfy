/** Scalar helpers shared by the kernel, the filter and the remapper: the JavaScript
    `Math.abs`, `Math.sign` and `Math.max`, the square-root abstraction, optional
    values and 3-D points. */
module Numeric {

  /** `Math.abs` on a finite number. */
  function Abs(x: real): (r: real)
    ensures 0.0 <= r
  {
    if x < 0.0 then -x else x
  }

  /** `Math.sign` on a finite number: -1, 0 or 1, with `Sign(x) * x == |x|`. */
  function Sign(x: real): (r: real)
    ensures r == 1.0 || r == 0.0 || r == -1.0
    ensures r * x == Abs(x)
    ensures r == 0.0 <==> x == 0.0
  {
    if x > 0.0 then 1.0 else if x < 0.0 then -1.0 else 0.0
  }

  /** `sqrt` behaves as `Math.sqrt` over exact reals on non-negative arguments:
      it returns the non-negative root. Dafny has no real square root, so every
      operation that calls `Math.sqrt` receives it as a parameter constrained by this. */
  ghost predicate IsSqrt(sqrt: real -> real)
  {
    forall x :: 0.0 <= x ==> 0.0 <= sqrt(x) && sqrt(x) * sqrt(x) == x
  }

  /** A product is zero only when a factor is. */
  lemma MulZero(u: real, v: real)
    requires u * v == 0.0
    ensures u == 0.0 || v == 0.0
  {
    if u != 0.0 {
      assert v == (u * v) / u;
    }
  }

  /** A product of non-negative numbers is non-negative. */
  lemma MulNonNegative(u: real, v: real)
    requires 0.0 <= u && 0.0 <= v
    ensures 0.0 <= u * v
  {
  }

  /** Two non-negative numbers with the same square are equal. */
  lemma SquareInjective(s: real, t: real)
    requires 0.0 <= s && 0.0 <= t
    requires s * s == t * t
    ensures s == t
  {
    assert (s - t) * (s + t) == s * s - t * t;
    MulZero(s - t, s + t);
  }

  /** The square root of a square is the absolute value. */
  lemma SqrtOfSquare(sqrt: real -> real, a: real)
    requires IsSqrt(sqrt)
    ensures sqrt(a * a) == Abs(a)
  {
    assert 0.0 <= a * a;
    assert Abs(a) * Abs(a) == a * a;
    SquareInjective(sqrt(a * a), Abs(a));
  }

  /** The square root is positive exactly on positive arguments. */
  lemma SqrtPositive(sqrt: real -> real, x: real)
    requires IsSqrt(sqrt)
    requires 0.0 <= x
    ensures 0.0 < sqrt(x) <==> 0.0 < x
  {
    var s := sqrt(x);
    assert 0.0 <= s && s * s == x;
    if x == 0.0 {
      MulZero(s, s);
    }
  }

  /** A value that may be absent (`null` or a missing landmark). */
  datatype Option<T> = None | Some(value: T)

  /** `Math.max` of two numbers. */
  function Max(a: real, b: real): (r: real)
    ensures a <= r && b <= r
    ensures r == a || r == b
  {
    if a >= b then a else b
  }

  /** A position or a measured (x, y, depth) sample of one joint. */
  datatype Point3 = Point3(x: real, y: real, z: real)

  function Plus(p: Point3, q: Point3): Point3
  {
    Point3(p.x + q.x, p.y + q.y, p.z + q.z)
  }

  function Minus(p: Point3, q: Point3): Point3
  {
    Point3(p.x - q.x, p.y - q.y, p.z - q.z)
  }

  function Scaled(p: Point3, k: real): Point3
  {
    Point3(p.x * k, p.y * k, p.z * k)
  }

  /** Squared Euclidean length. */
  function NormSq(p: Point3): (r: real)
    ensures 0.0 <= r
  {
    assert 0.0 <= p.x * p.x && 0.0 <= p.y * p.y && 0.0 <= p.z * p.z;
    p.x * p.x + p.y * p.y + p.z * p.z
  }

  /** A sum of three squares vanishes only when each term does. */
  lemma SumOfSquaresZero(a: real, b: real, c: real)
    requires a * a + b * b + c * c == 0.0
    ensures a == 0.0 && b == 0.0 && c == 0.0
  {
    var a2, b2, c2 := a * a, b * b, c * c;
    assert 0.0 <= a2 && 0.0 <= b2 && 0.0 <= c2;
    assert a2 == 0.0 && b2 == 0.0 && c2 == 0.0;
    MulZero(a, a);
    MulZero(b, b);
    MulZero(c, c);
  }

  /** Only the zero vector has length zero. */
  lemma NormSqZero(p: Point3)
    requires NormSq(p) == 0.0
    ensures p == Point3(0.0, 0.0, 0.0)
  {
    SumOfSquaresZero(p.x, p.y, p.z);
  }

  lemma NormSqScaled(p: Point3, k: real)
    ensures NormSq(Scaled(p, k)) == k * k * NormSq(p)
  {
    calc {
      NormSq(Scaled(p, k));
      (p.x * k) * (p.x * k) + (p.y * k) * (p.y * k) + (p.z * k) * (p.z * k);
      k * k * (p.x * p.x) + k * k * (p.y * p.y) + k * k * (p.z * p.z);
    }
  }
}
