/**
 * Plane geometry shared by the reflection search and the path simplifier:
 * points as exact reals, the side test of the `misc` helper module, and the
 * square root of the `math` module taken as a parameter.
 */
module Geometry {

  /** A point `[x, y]` in the projected plane. */
  datatype Point2 = Point2(x: real, y: real)

  /** A point `[x, y, z]`; z is a height. */
  datatype Point3 = Point3(x: real, y: real, z: real)

  /** The source's slice `p[:2]`: the point without its height. */
  function Flat(p: Point3): Point2
  {
    Point2(p.x, p.y)
  }

  /** The source's `p.append(h)` on a two-element point list. */
  function Lift(p: Point2, h: real): (q: Point3)
    ensures Flat(q) == p && q.z == h
  {
    Point3(p.x, p.y, h)
  }

  /** Squared Euclidean distance. */
  function Dist2(p: Point2, q: Point2): real
  {
    (p.x - q.x) * (p.x - q.x) + (p.y - q.y) * (p.y - q.y)
  }

  /**
   * `misc.side_test(a, b, p)`: the cross product (b - a) x (p - a), that is
   * the length of a->b times the signed distance of p from the line, positive
   * when p lies to the left of a->b.
   */
  function SideTest(a: Point2, b: Point2, p: Point2): real
  {
    (b.x - a.x) * (p.y - a.y) - (b.y - a.y) * (p.x - a.x)
  }

  /**
   * Marks an argument at which the square root's defining property is wanted;
   * it keeps the property of `IsSqrt` from being applied to every `sqrt(..)`
   * term the verifier meets.
   */
  ghost predicate Rooted(v: real)
  {
    true
  }

  /** `sqrt` behaves as `math.sqrt` on every non-negative argument. */
  ghost predicate IsSqrt(sqrt: real -> real)
  {
    forall v {:trigger Rooted(v)} :: Rooted(v) && 0.0 <= v ==> 0.0 <= sqrt(v) && sqrt(v) * sqrt(v) == v
  }

  /** The defining property of the square root at one argument. */
  lemma SqrtSpec(sqrt: real -> real, v: real)
    requires IsSqrt(sqrt) && 0.0 <= v
    ensures 0.0 <= sqrt(v) && sqrt(v) * sqrt(v) == v
  {
    assert Rooted(v);
  }

  /** |x| */
  function Abs(x: real): (r: real)
    ensures 0.0 <= r && (r == x || r == -x)
  {
    if x < 0.0 then -x else x
  }

  lemma NegativeSquare(x: real)
    requires x < 0.0
    ensures 0.0 < x * x
  {
  }

  /** The square of a non-zero number is positive. */
  lemma SquarePositive(x: real)
    requires x != 0.0
    ensures 0.0 < x * x
  {
    if x < 0.0 { NegativeSquare(x); }
  }

  lemma SquareNonNegative(x: real)
    ensures 0.0 <= x * x
  {
    if x != 0.0 { SquarePositive(x); }
  }

  lemma SumSquaresPositive(a: real, b: real)
    requires a != 0.0 || b != 0.0
    ensures 0.0 < a * a + b * b
  {
    SquareNonNegative(a);
    SquareNonNegative(b);
    if a != 0.0 { SquarePositive(a); }
    if b != 0.0 { SquarePositive(b); }
  }

  /** A sum of two squares vanishes only when both terms do. */
  lemma SumSquaresZero(a: real, b: real)
    requires a * a + b * b == 0.0
    ensures a == 0.0 && b == 0.0
  {
    if a != 0.0 || b != 0.0 {
      calc {
        0.0;
      == a * a + b * b;
      > { SumSquaresPositive(a, b); } 0.0;
      }
    }
  }

  /** Squaring is strictly increasing on the non-negative reals. */
  lemma SquareMonotonic(a: real, b: real)
    requires 0.0 <= a < b
    ensures a * a < b * b
  {
    calc {
      a * a;
    <= a * b;
    < b * b;
    }
  }

  /** Two points are at squared distance zero exactly when they coincide. */
  lemma Dist2Zero(p: Point2, q: Point2)
    ensures 0.0 <= Dist2(p, q)
    ensures Dist2(p, q) == 0.0 <==> p == q
  {
    var dx, dy := p.x - q.x, p.y - q.y;
    SquareNonNegative(dx);
    SquareNonNegative(dy);
    if Dist2(p, q) == 0.0 {
      SumSquaresZero(dx, dy);
      assert p == Point2(q.x, q.y);
    }
  }

  /** Swapping the two points of the directed line flips the sign of the side test. */
  lemma SideTestSwap(a: Point2, b: Point2, p: Point2)
    ensures SideTest(b, a, p) == -SideTest(a, b, p)
  {
  }

  /** A non-zero side test implies a line of non-zero length. */
  lemma SideTestNonZero(a: Point2, b: Point2, p: Point2)
    requires SideTest(a, b, p) != 0.0
    ensures a != b
    ensures 0.0 < Dist2(b, a)
  {
    Dist2Zero(b, a);
  }

  /** A non-negative number whose square is v is the square root of v. */
  lemma SqrtUnique(sqrt: real -> real, v: real, m: real)
    requires IsSqrt(sqrt)
    requires 0.0 <= m && m * m == v
    ensures sqrt(v) == m
  {
    SqrtSpec(sqrt, v);
    var q := sqrt(v);
    assert 0.0 <= q && q * q == m * m;
    if q < m {
      SquareMonotonic(q, m);
    } else if m < q {
      SquareMonotonic(m, q);
    }
  }

  /** The norm of a non-zero vector (a, b) is positive. */
  lemma NormPositive(sqrt: real -> real, a: real, b: real)
    requires IsSqrt(sqrt)
    requires a != 0.0 || b != 0.0
    ensures 0.0 < sqrt(a * a + b * b)
    ensures sqrt(a * a + b * b) * sqrt(a * a + b * b) == a * a + b * b
  {
    SumSquaresPositive(a, b);
    SqrtSpec(sqrt, a * a + b * b);
    assert 0.0 <= sqrt(a * a + b * b) && sqrt(a * a + b * b) * sqrt(a * a + b * b) == a * a + b * b;
    if sqrt(a * a + b * b) == 0.0 {
      calc {
        0.0;
      < a * a + b * b;
      == sqrt(a * a + b * b) * sqrt(a * a + b * b);
      == 0.0 * 0.0;
      == 0.0;
      }
    }
  }
}
