/**
 * The closed-form algebra of the image-source method (`ReflectionPath` in
 * code/simpleReflection.py): the Hessian normal form of a wall's line, the
 * mirror image and the orthogonal foot of a point, parametric segment
 * intersection, and the two ways of cutting a wall into candidate points.
 */
module ReflectionGeometry {
  import opened Wrappers
  import opened Geometry

  /** The line a * x + b * y + c == 0 (`parameters` in the source). */
  datatype Line = Line(a: real, b: real, c: real)

  /** A wall or a ray `[p1, p2]`. */
  datatype Segment = Segment(p1: Point2, p2: Point2)

  /** a * x + b * y + c: the signed distance of p when (a, b) is a unit vector. */
  function SignedDistance(l: Line, p: Point2): real
  {
    l.a * p.x + l.b * p.y + l.c
  }

  /** The normal (a, b) has length one: the Hessian normal form. */
  ghost predicate IsUnitNormal(l: Line)
  {
    l.a * l.a + l.b * l.b == 1.0
  }

  /** The point p1 + u * (p2 - p1) of the segment's supporting line. */
  function PointAt(s: Segment, u: real): Point2
  {
    Point2(s.p1.x + u * (s.p2.x - s.p1.x), s.p1.y + u * (s.p2.y - s.p1.y))
  }

  /** p lies on the closed segment s. */
  ghost predicate OnSegment(p: Point2, s: Segment)
  {
    exists u :: 0.0 <= u <= 1.0 && p == PointAt(s, u)
  }

  /** If e * d == 0 and d != 0 then e == 0. */
  lemma ZeroProduct(e: real, d: real)
    requires e * d == 0.0 && d != 0.0
    ensures e == 0.0
  {
    calc {
      e;
    == (e * d) / d;
    == 0.0 / d;
    == 0.0;
    }
  }

  /** Dividing the three coefficients by the norm gives a unit normal. */
  lemma NormalizedIsUnit(a: real, b: real, m: real)
    requires m != 0.0 && m * m == a * a + b * b
    ensures (a / m) * (a / m) + (b / m) * (b / m) == 1.0
  {
    var ua, ub := a / m, b / m;
    assert ua * m == a && ub * m == b;
    var e := ua * ua + ub * ub - 1.0;
    calc {
      e * (m * m);
    == (ua * m) * (ua * m) + (ub * m) * (ub * m) - m * m;
    == a * a + b * b - m * m;
    == 0.0;
    }
    assert (e * m) * m == 0.0;
    ZeroProduct(e * m, m);
    ZeroProduct(e, m);
  }

  /** Dividing the three coefficients by m != 0 keeps the points of the line. */
  lemma NormalizedKeepsPoints(a: real, b: real, c: real, m: real, p: Point2)
    requires m != 0.0
    ensures (a / m) * p.x + (b / m) * p.y + c / m == (a * p.x + b * p.y + c) / m
    ensures a * p.x + b * p.y + c == 0.0 ==> (a / m) * p.x + (b / m) * p.y + c / m == 0.0
  {
  }

  /** The unnormalised coefficients of `get_line_equation` vanish at both points. */
  lemma ThroughBothPoints(p1: Point2, p2: Point2, a: real, b: real, c: real)
    requires a == p2.y - p1.y && b == -(p2.x - p1.x) && c == -a * p1.x - b * p1.y
    ensures a * p1.x + b * p1.y + c == 0.0 && a * p2.x + b * p2.y + c == 0.0
  {
    calc {
      a * p2.x + b * p2.y + c;
    == a * (p2.x - p1.x) + b * (p2.y - p1.y);
    == (p2.y - p1.y) * (p2.x - p1.x) - (p2.x - p1.x) * (p2.y - p1.y);
    == 0.0;
    }
  }

  /** Scaling a line through p1 and p2 by its norm keeps both points and makes the normal a unit vector. */
  lemma NormalizedLine(a: real, b: real, c: real, m: real, p1: Point2, p2: Point2)
    requires m != 0.0 && m * m == a * a + b * b
    requires a * p1.x + b * p1.y + c == 0.0 && a * p2.x + b * p2.y + c == 0.0
    ensures IsUnitNormal(Line(a / m, b / m, c / m))
    ensures SignedDistance(Line(a / m, b / m, c / m), p1) == 0.0
    ensures SignedDistance(Line(a / m, b / m, c / m), p2) == 0.0
  {
    NormalizedIsUnit(a, b, m);
    NormalizedKeepsPoints(a, b, c, m, p1);
    NormalizedKeepsPoints(a, b, c, m, p2);
  }

  /**
   * `get_line_equation(p1, p2)` (code/simpleReflection.py:13-36): the line
   * through p1 and p2 with its normal scaled to length one. The source divides
   * by the norm m, so the two points must differ.
   */
  function GetLineEquation(p1: Point2, p2: Point2, sqrt: real -> real): (l: Line)
    requires IsSqrt(sqrt)
    requires p1 != p2
    ensures IsUnitNormal(l)
    ensures SignedDistance(l, p1) == 0.0 && SignedDistance(l, p2) == 0.0
  {
    var a := p2.y - p1.y;
    var b := -(p2.x - p1.x);
    var c := -a * p1.x - b * p1.y;
    NormPositive(sqrt, a, b);
    var m := sqrt(a * a + b * b);
    ThroughBothPoints(p1, p2, a, b, c);
    NormalizedLine(a, b, c, m, p1, p2);
    Line(a / m, b / m, c / m)
  }

  /**
   * The line equation and the side test agree up to the positive factor m,
   * with opposite signs: a point left of p1->p2 has a negative signed distance.
   */
  lemma LineEquationSide(p1: Point2, p2: Point2, p: Point2, sqrt: real -> real)
    requires IsSqrt(sqrt) && p1 != p2
    ensures SignedDistance(GetLineEquation(p1, p2, sqrt), p) * sqrt(Dist2(p2, p1)) == -SideTest(p1, p2, p)
    ensures 0.0 < sqrt(Dist2(p2, p1))
    ensures SideTest(p1, p2, p) > 0.0 <==> SignedDistance(GetLineEquation(p1, p2, sqrt), p) < 0.0
  {
    var a, b := p2.y - p1.y, -(p2.x - p1.x);
    var c := -a * p1.x - b * p1.y;
    NormPositive(sqrt, a, b);
    assert Dist2(p2, p1) == a * a + b * b;
    SideAsLine(p1, p2, p, a, b, c);
    ScaledSide(a, b, c, sqrt(a * a + b * b), p);
  }

  /** The unnormalised line equation of `get_line_equation` is minus the side test. */
  lemma SideAsLine(p1: Point2, p2: Point2, p: Point2, a: real, b: real, c: real)
    requires a == p2.y - p1.y && b == -(p2.x - p1.x) && c == -a * p1.x - b * p1.y
    ensures a * p.x + b * p.y + c == -SideTest(p1, p2, p)
  {
    calc {
      a * p.x + b * p.y + c;
    == (p2.y - p1.y) * (p.x - p1.x) - (p2.x - p1.x) * (p.y - p1.y);
    == -SideTest(p1, p2, p);
    }
  }

  /** Dividing the line equation by a positive norm keeps its sign. */
  lemma ScaledSide(a: real, b: real, c: real, m: real, p: Point2)
    requires 0.0 < m
    ensures ((a / m) * p.x + (b / m) * p.y + c / m) * m == a * p.x + b * p.y + c
    ensures (a / m) * p.x + (b / m) * p.y + c / m < 0.0 <==> a * p.x + b * p.y + c < 0.0
  {
    NormalizedKeepsPoints(a, b, c, m, p);
    DivTimes(a * p.x + b * p.y + c, m);
  }

  /** A point of a segment lies on every line through both its ends. */
  lemma OnSegmentOnLine(l: Line, w: Segment, q: Point2)
    requires SignedDistance(l, w.p1) == 0.0 && SignedDistance(l, w.p2) == 0.0
    requires OnSegment(q, w)
    ensures SignedDistance(l, q) == 0.0
  {
    var u :| 0.0 <= u <= 1.0 && q == PointAt(w, u);
    assert SignedDistance(l, q) == (1.0 - u) * SignedDistance(l, w.p1) + u * SignedDistance(l, w.p2);
  }

  /**
   * Moving (x, y) by k * d along the normal (a, b), where d is its value in the
   * line equation, changes that value by k * d * (a^2 + b^2).
   */
  lemma NormalShift(a: real, b: real, c: real, x: real, y: real, d: real, k: real)
    requires d == a * x + b * y + c
    ensures a * (x - k * a * d) + b * (y - k * b * d) + c == d - k * d * (a * a + b * b)
    ensures a * a + b * b == 1.0 ==> a * (x - k * a * d) + b * (y - k * b * d) + c == d - k * d
  {
    calc {
      a * (x - k * a * d) + b * (y - k * b * d) + c;
    == (a * x + b * y + c) - k * d * (a * a + b * b);
    == d - k * d * (a * a + b * b);
    }
  }

  /**
   * Pythagoras for a step (a * d, b * d) along a unit normal followed by a
   * step (fx, fy) orthogonal to it.
   */
  lemma Pythagoras(a: real, b: real, d: real, fx: real, fy: real)
    requires a * a + b * b == 1.0 && a * fx + b * fy == 0.0
    ensures (a * d) * (a * d) + (b * d) * (b * d) == d * d
    ensures (a * d + fx) * (a * d + fx) + (b * d + fy) * (b * d + fy) >= d * d
  {
    calc {
      (a * d) * (a * d) + (b * d) * (b * d);
    == d * d * (a * a + b * b);
    == d * d;
    }
    calc {
      (a * d + fx) * (a * d + fx) + (b * d + fy) * (b * d + fy);
    == d * d * (a * a + b * b) + 2.0 * d * (a * fx + b * fy) + (fx * fx + fy * fy);
    == d * d + (fx * fx + fy * fy);
    }
    SquareNonNegative(fx);
    SquareNonNegative(fy);
  }

  /**
   * `get_mirror_point(p1, parameters)` (code/simpleReflection.py:38-53): the
   * image of p across the line. It moves p along the normal, and for a unit
   * normal it lands at the opposite signed distance.
   */
  function GetMirrorPoint(p: Point2, l: Line): (q: Point2)
    ensures (q.x - p.x) * l.b == (q.y - p.y) * l.a
    ensures IsUnitNormal(l) ==> SignedDistance(l, q) == -SignedDistance(l, p)
  {
    var d := SignedDistance(l, p);
    NormalShift(l.a, l.b, l.c, p.x, p.y, d, 2.0);
    Point2(p.x - 2.0 * l.a * d, p.y - 2.0 * l.b * d)
  }

  /** Mirroring twice across a line in Hessian normal form gives the point back. */
  lemma MirrorInvolution(p: Point2, l: Line)
    requires IsUnitNormal(l)
    ensures GetMirrorPoint(GetMirrorPoint(p, l), l) == p
  {
    var d := SignedDistance(l, p);
    var q := GetMirrorPoint(p, l);
    assert SignedDistance(l, q) == -d;
  }

  /** A point is its own mirror image exactly when it lies on the line. */
  lemma MirrorFixedPoints(p: Point2, l: Line)
    requires IsUnitNormal(l)
    ensures GetMirrorPoint(p, l) == p <==> SignedDistance(l, p) == 0.0
  {
    var d := SignedDistance(l, p);
    if GetMirrorPoint(p, l) == p {
      assert l.a * d == 0.0 && l.b * d == 0.0;
      calc {
        d;
      == d * (l.a * l.a + l.b * l.b);
      == (l.a * d) * l.a + (l.b * d) * l.b;
      == 0.0;
      }
    }
  }

  /**
   * The mirror image is as far from every point of the line as the point
   * itself: a path p -> q -> r is as long as the straight image -> q -> r.
   */
  lemma MirrorIsometry(p: Point2, q: Point2, l: Line)
    requires IsUnitNormal(l) && SignedDistance(l, q) == 0.0
    ensures Dist2(GetMirrorPoint(p, l), q) == Dist2(p, q)
  {
    var d := SignedDistance(l, p);
    var ex, ey := p.x - q.x, p.y - q.y;
    assert l.a * ex + l.b * ey == d;
    calc {
      Dist2(GetMirrorPoint(p, l), q);
    == (ex - 2.0 * l.a * d) * (ex - 2.0 * l.a * d) + (ey - 2.0 * l.b * d) * (ey - 2.0 * l.b * d);
    == ex * ex + ey * ey - 4.0 * d * (l.a * ex + l.b * ey) + 4.0 * d * d * (l.a * l.a + l.b * l.b);
    == ex * ex + ey * ey;
    }
  }

  /**
   * `get_closest_point(p1, parameters)` (code/simpleReflection.py:55-70): the
   * orthogonal foot of p on the line, halfway between p and its mirror image.
   */
  function GetClosestPoint(p: Point2, l: Line): (q: Point2)
    ensures (q.x - p.x) * l.b == (q.y - p.y) * l.a
    ensures IsUnitNormal(l) ==> SignedDistance(l, q) == 0.0
    ensures q.x * 2.0 == p.x + GetMirrorPoint(p, l).x && q.y * 2.0 == p.y + GetMirrorPoint(p, l).y
  {
    var d := SignedDistance(l, p);
    NormalShift(l.a, l.b, l.c, p.x, p.y, d, 1.0);
    Point2(p.x - l.a * d, p.y - l.b * d)
  }

  /** The orthogonal foot is the point of the line nearest to p. */
  lemma ClosestIsNearest(p: Point2, q: Point2, l: Line)
    requires IsUnitNormal(l) && SignedDistance(l, q) == 0.0
    ensures Dist2(p, GetClosestPoint(p, l)) <= Dist2(p, q)
  {
    var c := GetClosestPoint(p, l);
    var d := SignedDistance(l, p);
    var fx, fy := c.x - q.x, c.y - q.y;
    assert l.a * fx + l.b * fy == SignedDistance(l, c) - SignedDistance(l, q);
    assert p.x - q.x == l.a * d + fx && p.y - q.y == l.b * d + fy;
    assert p.x - c.x == l.a * d && p.y - c.y == l.b * d;
    Pythagoras(l.a, l.b, d, fx, fy);
  }

  /** The determinant `d` of `line_intersect`: zero exactly for parallel directions. */
  function Determinant(line1: Segment, line2: Segment): real
  {
    (line2.p2.y - line2.p1.y) * (line1.p2.x - line1.p1.x) - (line2.p2.x - line2.p1.x) * (line1.p2.y - line1.p1.y)
  }

  /** Numerator of the parameter uA along line1. */
  function NumeratorA(line1: Segment, line2: Segment): real
  {
    (line2.p2.x - line2.p1.x) * (line1.p1.y - line2.p1.y) - (line2.p2.y - line2.p1.y) * (line1.p1.x - line2.p1.x)
  }

  /** Numerator of the parameter uB along line2. */
  function NumeratorB(line1: Segment, line2: Segment): real
  {
    (line1.p2.x - line1.p1.x) * (line1.p1.y - line2.p1.y) - (line1.p2.y - line1.p1.y) * (line1.p1.x - line2.p1.x)
  }

  /**
   * Cramer's rule: parameters whose multiples by the determinant are the two
   * numerators make the difference of the two points vanish.
   */
  lemma CramerAlgebra(line1: Segment, line2: Segment, uA: real, uB: real)
    requires Determinant(line1, line2) != 0.0
    requires uA * Determinant(line1, line2) == NumeratorA(line1, line2)
    requires uB * Determinant(line1, line2) == NumeratorB(line1, line2)
    ensures (line1.p1.x - line2.p1.x) + uA * (line1.p2.x - line1.p1.x) - uB * (line2.p2.x - line2.p1.x) == 0.0
    ensures (line1.p1.y - line2.p1.y) + uA * (line1.p2.y - line1.p1.y) - uB * (line2.p2.y - line2.p1.y) == 0.0
  {
    var e1x, e1y := line1.p2.x - line1.p1.x, line1.p2.y - line1.p1.y;
    var e2x, e2y := line2.p2.x - line2.p1.x, line2.p2.y - line2.p1.y;
    var wx, wy := line1.p1.x - line2.p1.x, line1.p1.y - line2.p1.y;
    var d := Determinant(line1, line2);
    var ex := wx + uA * e1x - uB * e2x;
    var ey := wy + uA * e1y - uB * e2y;
    calc {
      ex * d;
    == wx * d + (uA * d) * e1x - (uB * d) * e2x;
    == wx * (e2y * e1x - e2x * e1y) + (e2x * wy - e2y * wx) * e1x - (e1x * wy - e1y * wx) * e2x;
    == 0.0;
    }
    calc {
      ey * d;
    == wy * d + (uA * d) * e1y - (uB * d) * e2y;
    == wy * (e2y * e1x - e2x * e1y) + (e2x * wy - e2y * wx) * e1y - (e1x * wy - e1y * wx) * e2y;
    == 0.0;
    }
    ZeroProduct(ex, d);
    ZeroProduct(ey, d);
  }

  /** Two points of the supporting lines coincide exactly when their difference vanishes. */
  lemma PointAtMeet(line1: Segment, line2: Segment, uA: real, uB: real)
    ensures PointAt(line1, uA) == PointAt(line2, uB) <==>
      (line1.p1.x - line2.p1.x) + uA * (line1.p2.x - line1.p1.x) - uB * (line2.p2.x - line2.p1.x) == 0.0 &&
      (line1.p1.y - line2.p1.y) + uA * (line1.p2.y - line1.p1.y) - uB * (line2.p2.y - line2.p1.y) == 0.0
  {
    var a, b := PointAt(line1, uA), PointAt(line2, uB);
    assert a.x - b.x == (line1.p1.x - line2.p1.x) + uA * (line1.p2.x - line1.p1.x) - uB * (line2.p2.x - line2.p1.x);
    assert a.y - b.y == (line1.p1.y - line2.p1.y) + uA * (line1.p2.y - line1.p1.y) - uB * (line2.p2.y - line2.p1.y);
  }

  /**
   * Cramer's rule: parameters uA, uB whose multiples uA * d and uB * d by the
   * determinant are the two numerators name the same point of both lines.
   */
  lemma CramerSolves(line1: Segment, line2: Segment, uA: real, uB: real)
    requires Determinant(line1, line2) != 0.0
    requires uA * Determinant(line1, line2) == NumeratorA(line1, line2)
    requires uB * Determinant(line1, line2) == NumeratorB(line1, line2)
    ensures PointAt(line1, uA) == PointAt(line2, uB)
  {
    CramerAlgebra(line1, line2, uA, uB);
    PointAtMeet(line1, line2, uA, uB);
  }

  /** Cramer's rule, converse: parameters of a common point times the determinant are the numerators. */
  lemma CramerSolution(line1: Segment, line2: Segment, u: real, v: real)
    requires (line1.p1.x - line2.p1.x) + u * (line1.p2.x - line1.p1.x) - v * (line2.p2.x - line2.p1.x) == 0.0
    requires (line1.p1.y - line2.p1.y) + u * (line1.p2.y - line1.p1.y) - v * (line2.p2.y - line2.p1.y) == 0.0
    ensures u * Determinant(line1, line2) == NumeratorA(line1, line2)
    ensures v * Determinant(line1, line2) == NumeratorB(line1, line2)
  {
    var e1x, e1y := line1.p2.x - line1.p1.x, line1.p2.y - line1.p1.y;
    var e2x, e2y := line2.p2.x - line2.p1.x, line2.p2.y - line2.p1.y;
    var wx, wy := line1.p1.x - line2.p1.x, line1.p1.y - line2.p1.y;
    assert wx == v * e2x - u * e1x && wy == v * e2y - u * e1y;
    calc {
      NumeratorA(line1, line2);
    == e2x * wy - e2y * wx;
    == e2x * (v * e2y - u * e1y) - e2y * (v * e2x - u * e1x);
    == u * (e2y * e1x - e2x * e1y);
    == u * Determinant(line1, line2);
    }
    calc {
      NumeratorB(line1, line2);
    == e1x * wy - e1y * wx;
    == e1x * (v * e2y - u * e1y) - e1y * (v * e2x - u * e1x);
    == v * (e2y * e1x - e2x * e1y);
    == v * Determinant(line1, line2);
    }
  }

  /** u * d == n with d != 0 means u is the quotient n / d. */
  lemma TimesDiv(u: real, d: real, n: real)
    requires d != 0.0 && u * d == n
    ensures u == n / d
  {
    ZeroProduct(u - n / d, d);
  }

  /** Cramer's rule: the two parameters name the same point of both lines. */
  lemma CramerMeet(line1: Segment, line2: Segment)
    requires Determinant(line1, line2) != 0.0
    ensures PointAt(line1, NumeratorA(line1, line2) / Determinant(line1, line2))
         == PointAt(line2, NumeratorB(line1, line2) / Determinant(line1, line2))
  {
    DivTimes(NumeratorA(line1, line2), Determinant(line1, line2));
    DivTimes(NumeratorB(line1, line2), Determinant(line1, line2));
    CramerSolves(line1, line2, NumeratorA(line1, line2) / Determinant(line1, line2), NumeratorB(line1, line2) / Determinant(line1, line2));
  }

  /** Cramer's rule: a common point of the two lines has exactly those parameters. */
  lemma CramerUnique(line1: Segment, line2: Segment, u: real, v: real)
    requires Determinant(line1, line2) != 0.0
    requires PointAt(line1, u) == PointAt(line2, v)
    ensures u == NumeratorA(line1, line2) / Determinant(line1, line2)
    ensures v == NumeratorB(line1, line2) / Determinant(line1, line2)
  {
    PointAtMeet(line1, line2, u, v);
    CramerSolution(line1, line2, u, v);
    TimesDiv(u, Determinant(line1, line2), NumeratorA(line1, line2));
    TimesDiv(v, Determinant(line1, line2), NumeratorB(line1, line2));
  }

  /**
   * `line_intersect(line1, line2)` (code/simpleReflection.py:72-93): the
   * common point of two segments, or `False` (None) for parallel segments
   * and for lines that meet outside either segment.
   */
  function LineIntersect(line1: Segment, line2: Segment): (r: Option<Point2>)
    ensures Determinant(line1, line2) == 0.0 ==> r == None
    ensures r.Some? ==> OnSegment(r.value, line1) && OnSegment(r.value, line2)
  {
    var d := Determinant(line1, line2);
    if d != 0.0 then
      var uA := NumeratorA(line1, line2) / d;
      var uB := NumeratorB(line1, line2) / d;
      if 0.0 <= uA <= 1.0 && 0.0 <= uB <= 1.0 then
        CramerMeet(line1, line2);
        Some(PointAt(line1, uA))
      else
        None
    else
      None
  }

  /** `line_intersect` finds every point the two non-parallel segments share. */
  lemma LineIntersectComplete(line1: Segment, line2: Segment, q: Point2)
    requires Determinant(line1, line2) != 0.0
    requires OnSegment(q, line1) && OnSegment(q, line2)
    ensures LineIntersect(line1, line2) == Some(q)
  {
    var u :| 0.0 <= u <= 1.0 && q == PointAt(line1, u);
    var v :| 0.0 <= v <= 1.0 && q == PointAt(line2, v);
    CramerUnique(line1, line2, u, v);
  }

  /** The k-th of n equal steps from p1 towards p2, as `split_lineseg` accumulates it. */
  function Step(s: Segment, n: int, k: int): Point2
    requires n > 0
  {
    Point2(s.p1.x + k as real * ((s.p2.x - s.p1.x) / n as real), s.p1.y + k as real * ((s.p2.y - s.p1.y) / n as real))
  }

  /** One more step adds (dx / n, dy / n). */
  lemma StepNext(s: Segment, n: int, k: int)
    requires n > 0
    ensures Step(s, n, k + 1) == Point2(Step(s, n, k).x + (s.p2.x - s.p1.x) / n as real, Step(s, n, k).y + (s.p2.y - s.p1.y) / n as real)
  {
  }

  /** The k-th step is the point at parameter k / n of the segment. */
  lemma StepIsPointAt(s: Segment, n: int, k: int)
    requires n > 0
    ensures Step(s, n, k) == PointAt(s, k as real / n as real)
  {
    var dx, dy, nr := s.p2.x - s.p1.x, s.p2.y - s.p1.y, n as real;
    assert k as real * (dx / nr) == (k as real / nr) * dx;
    assert k as real * (dy / nr) == (k as real / nr) * dy;
  }

  /**
   * `split_lineseg(n, lineseg)` (code/simpleReflection.py:95-119): n + 1
   * equally spaced points from p1 to p2, each one step of (dx / n, dy / n)
   * after the previous; for n <= 0 just [p1].
   */
  method SplitLineseg(n: int, lineseg: Segment) returns (refList: seq<Point2>)
    ensures |refList| == if n > 0 then n + 1 else 1
    ensures refList[0] == lineseg.p1
    ensures n > 0 ==> refList[n] == lineseg.p2
    ensures n > 0 ==> forall k :: 0 <= k < |refList| ==> refList[k] == PointAt(lineseg, k as real / n as real)
    ensures n > 0 ==> forall k :: 0 < k < |refList| ==>
      refList[k].x - refList[k - 1].x == (lineseg.p2.x - lineseg.p1.x) / n as real &&
      refList[k].y - refList[k - 1].y == (lineseg.p2.y - lineseg.p1.y) / n as real
  {
    var deltaX := lineseg.p2.x - lineseg.p1.x;
    var deltaY := lineseg.p2.y - lineseg.p1.y;
    var vertex := lineseg.p1;
    refList := [vertex];
    var number := 0;
    while number < n
      invariant 0 <= number <= if n > 0 then n else 0
      invariant |refList| == number + 1 && refList[number] == vertex && refList[0] == lineseg.p1
      invariant n > 0 ==> forall k :: 0 <= k < |refList| ==> refList[k] == Step(lineseg, n, k)
    {
      StepNext(lineseg, n, number);
      var x := vertex.x + deltaX / n as real;
      var y := vertex.y + deltaY / n as real;
      vertex := Point2(x, y);
      refList := refList + [vertex];
      number := number + 1;
    }
    if n > 0 {
      forall k | 0 <= k < |refList|
        ensures refList[k] == PointAt(lineseg, k as real / n as real)
      {
        StepIsPointAt(lineseg, n, k);
      }
      forall k | 0 < k < |refList|
        ensures refList[k].x - refList[k - 1].x == deltaX / n as real
        ensures refList[k].y - refList[k - 1].y == deltaY / n as real
      {
        StepNext(lineseg, n, k - 1);
      }
      assert refList[n] == PointAt(lineseg, n as real / n as real);
    }
  }

  /** The number `n = math.floor(length // dim)` of interior samples of `split_lineseg2`. */
  function SampleCount(length: real, dim: real): int
    requires dim != 0.0
  {
    (length / dim).Floor
  }

  /** A wall of length zero gets no interior samples. */
  lemma SampleCountZero(length: real, dim: real)
    requires dim != 0.0
    ensures SampleCount(length, dim) > 0 ==> length != 0.0
  {
    if length == 0.0 {
      assert length / dim == 0.0;
    }
  }

  /** The length of a wall. */
  function Length(s: Segment, sqrt: real -> real): real
    requires IsSqrt(sqrt)
  {
    sqrt(Dist2(s.p2, s.p1))
  }

  /** The sample at distance h from p1 towards p2 (`inter` in `split_lineseg2`). */
  function SampleAt(s: Segment, length: real, h: real): Point2
    requires length != 0.0
  {
    Point2(((h * (s.p2.x - s.p1.x)) / length) + s.p1.x, ((h * (s.p2.y - s.p1.y)) / length) + s.p1.y)
  }

  /** The samples at distances dim, 2 * dim, ..., count * dim from p1. */
  function SamplesUpTo(s: Segment, length: real, dim: real, count: int): (r: seq<Point2>)
    requires count > 0 ==> length != 0.0
    ensures |r| == if count > 0 then count else 0
  {
    if count <= 0 then [] else SamplesUpTo(s, length, dim, count - 1) + [SampleAt(s, length, count as real * dim)]
  }

  /** One more sample appends the one at distance (count + 1) * dim. */
  lemma SamplesUpToNext(s: Segment, length: real, dim: real, count: nat)
    requires length != 0.0
    ensures SamplesUpTo(s, length, dim, count + 1) == SamplesUpTo(s, length, dim, count) + [SampleAt(s, length, (count + 1) as real * dim)]
  {
    assert count + 1 - 1 == count;
  }

  /** The k-th sample, counted from one, is the one at distance k * dim. */
  lemma SamplesUpToAt(s: Segment, length: real, dim: real, count: int, k: int)
    requires count > 0 ==> length != 0.0
    requires 1 <= k <= count
    ensures SamplesUpTo(s, length, dim, count)[k - 1] == SampleAt(s, length, k as real * dim)
  {
    SamplesUpToPrefix(s, length, dim, count, k);
    SamplesUpToLast(s, length, dim, k);
    assert SamplesUpTo(s, length, dim, count)[k - 1] == SamplesUpTo(s, length, dim, count)[..k][k - 1];
  }

  /** The last of count samples is the one at distance count * dim. */
  lemma SamplesUpToLast(s: Segment, length: real, dim: real, count: int)
    requires length != 0.0 && 1 <= count
    ensures SamplesUpTo(s, length, dim, count)[count - 1] == SampleAt(s, length, count as real * dim)
  {
  }

  /** The first k of count samples are the k samples. */
  lemma {:induction false} SamplesUpToPrefix(s: Segment, length: real, dim: real, count: int, k: int)
    requires count > 0 ==> length != 0.0
    requires 0 <= k <= count
    ensures SamplesUpTo(s, length, dim, count)[..k] == SamplesUpTo(s, length, dim, k)
  {
    if k < count {
      SamplesUpToPrefix(s, length, dim, count - 1, k);
      var prev := SamplesUpTo(s, length, dim, count - 1);
      assert SamplesUpTo(s, length, dim, count) == prev + [SampleAt(s, length, count as real * dim)];
      assert (prev + [SampleAt(s, length, count as real * dim)])[..k] == prev[..k];
    }
  }

  /** The interior samples of `split_lineseg2`: one every dim along the wall. */
  function Samples(s: Segment, dim: real, sqrt: real -> real): seq<Point2>
    requires IsSqrt(sqrt) && dim != 0.0
  {
    var length := Length(s, sqrt);
    SamplesUpTo(s, length, dim, SampleCount(length, dim))
  }

  /**
   * What `split_lineseg2(dim, lineseg)` returns: p1, the interior samples, and
   * p2 unless the last sample already equals it.
   */
  function Subdivision(dim: real, s: Segment, sqrt: real -> real): seq<Point2>
    requires IsSqrt(sqrt) && dim != 0.0
  {
    var prefix := [s.p1] + Samples(s, dim, sqrt);
    if prefix[|prefix| - 1] == s.p2 then prefix else prefix + [s.p2]
  }

  /**
   * The sampling loop of `split_lineseg2` (code/simpleReflection.py:131-143):
   * p1 followed by the points at distances dim, 2 * dim, ..., n * dim.
   */
  method SampleWall(lineseg: Segment, length: real, dim: real, n: int) returns (refList: seq<Point2>)
    requires n > 0 ==> length != 0.0
    ensures refList == [lineseg.p1] + SamplesUpTo(lineseg, length, dim, n)
  {
    refList := [lineseg.p1];
    var number := 0;
    while number < n
      invariant 0 <= number <= if n > 0 then n else 0
      invariant refList == [lineseg.p1] + SamplesUpTo(lineseg, length, dim, number)
    {
      var inter := SampleAt(lineseg, length, (number + 1) as real * dim);
      SamplesUpToNext(lineseg, length, dim, number);
      refList := refList + [inter];
      number := number + 1;
    }
  }

  /**
   * `split_lineseg2(dim, lineseg)` (code/simpleReflection.py:121-148). Python's
   * `//` raises ZeroDivisionError for dim == 0, hence the precondition.
   */
  method SplitLineseg2(dim: real, lineseg: Segment, sqrt: real -> real) returns (refList: seq<Point2>)
    requires IsSqrt(sqrt) && dim != 0.0
    ensures refList == Subdivision(dim, lineseg, sqrt)
  {
    var length := Length(lineseg, sqrt);
    var n := (length / dim).Floor;
    SampleCountZero(length, dim);
    refList := SampleWall(lineseg, length, dim, n);
    if refList[|refList| - 1] == lineseg.p2 {
    } else {
      refList := refList + [lineseg.p2];
    }
  }

  /** a / b <= 1 for 0 < b and a <= b. */
  lemma DivAtMostOne(a: real, b: real)
    requires 0.0 < b && a <= b
    ensures a / b <= 1.0
  {
  }

  /** floor(length / dim) * dim never exceeds length for dim > 0. */
  lemma SampleCountBound(length: real, dim: real, k: int)
    requires 0.0 < dim && k <= SampleCount(length, dim)
    ensures k as real * dim <= length
  {
    var n := SampleCount(length, dim);
    assert n as real <= length / dim;
    calc {
      k as real * dim;
    <= n as real * dim;
    <= (length / dim) * dim;
    == length;
    }
  }

  /** A sample is the point at parameter h / length of the wall. */
  lemma SampleIsPointAt(s: Segment, length: real, h: real)
    requires length != 0.0
    ensures SampleAt(s, length, h) == PointAt(s, h / length)
  {
    assert (h * (s.p2.x - s.p1.x)) / length == (h / length) * (s.p2.x - s.p1.x);
    assert (h * (s.p2.y - s.p1.y)) / length == (h / length) * (s.p2.y - s.p1.y);
  }

  /** The point at parameter u is u times the wall's length away from p1. */
  lemma PointAtDistance(s: Segment, u: real)
    ensures Dist2(PointAt(s, u), s.p1) == (u * u) * Dist2(s.p2, s.p1)
  {
    var dx, dy := s.p2.x - s.p1.x, s.p2.y - s.p1.y;
    calc {
      Dist2(PointAt(s, u), s.p1);
    == (u * dx) * (u * dx) + (u * dy) * (u * dy);
    == (u * u) * (dx * dx + dy * dy);
    }
  }

  /** Distinct parameters name distinct points of a wall of non-zero length. */
  lemma PointAtInjective(s: Segment, u: real, v: real)
    requires s.p1 != s.p2
    requires PointAt(s, u) == PointAt(s, v)
    ensures u == v
  {
    var dx, dy := s.p2.x - s.p1.x, s.p2.y - s.p1.y;
    assert (u - v) * dx == 0.0 && (u - v) * dy == 0.0;
    if dx != 0.0 {
      ZeroProduct(u - v, dx);
    } else {
      ZeroProduct(u - v, dy);
    }
  }

  /** The wall length is positive exactly when the wall's ends differ. */
  lemma LengthPositive(s: Segment, sqrt: real -> real)
    requires IsSqrt(sqrt)
    ensures 0.0 <= Length(s, sqrt)
    ensures Length(s, sqrt) * Length(s, sqrt) == Dist2(s.p2, s.p1)
    ensures 0.0 < Length(s, sqrt) <==> s.p1 != s.p2
  {
    Dist2Zero(s.p2, s.p1);
    SqrtSpec(sqrt, Dist2(s.p2, s.p1));
    assert Dist2(s.p2, s.p1) == (s.p2.x - s.p1.x) * (s.p2.x - s.p1.x) + (s.p2.y - s.p1.y) * (s.p2.y - s.p1.y);
    if s.p1 != s.p2 {
      NormPositive(sqrt, s.p2.x - s.p1.x, s.p2.y - s.p1.y);
    } else if Length(s, sqrt) != 0.0 {
      calc {
        0.0;
      < { SquarePositive(Length(s, sqrt)); }
        Length(s, sqrt) * Length(s, sqrt);
      == Dist2(s.p2, s.p1);
      == 0.0;
      }
    }
  }

  /** For dim > 0 the samples sit at parameters k * dim / length in (0, 1]. */
  lemma SampleParameter(s: Segment, dim: real, sqrt: real -> real, k: int)
    requires IsSqrt(sqrt) && 0.0 < dim
    requires 1 <= k <= SampleCount(Length(s, sqrt), dim)
    ensures 0.0 < Length(s, sqrt)
    ensures Samples(s, dim, sqrt)[k - 1] == PointAt(s, k as real * dim / Length(s, sqrt))
    ensures 0.0 < k as real * dim / Length(s, sqrt) <= 1.0
  {
    var length := Length(s, sqrt);
    var n := SampleCount(length, dim);
    LengthPositive(s, sqrt);
    SampleCountBound(length, dim, k);
    assert 0.0 < length;
    SampleIsPointAt(s, length, k as real * dim);
    SamplesUpToAt(s, length, dim, n, k);
    DivAtMostOne(k as real * dim, length);
  }

  /** Dividing by b and multiplying by b again gives a back. */
  lemma DivTimes(a: real, b: real)
    requires b != 0.0
    ensures (a / b) * b == a
  {
  }

  /** The point at parameter u, with u * length == h, lies h from p1. */
  lemma ScaledDistance(s: Segment, u: real, length: real, h: real)
    requires length * length == Dist2(s.p2, s.p1)
    requires u * length == h
    ensures Dist2(PointAt(s, u), s.p1) == h * h
  {
    PointAtDistance(s, u);
    calc {
      Dist2(PointAt(s, u), s.p1);
    == (u * u) * Dist2(s.p2, s.p1);
    == (u * u) * (length * length);
    == (u * length) * (u * length);
    }
  }

  /** On a wall of positive length, the point at parameter h / length lies h from p1. */
  lemma HeightDistance(s: Segment, sqrt: real -> real, h: real)
    requires IsSqrt(sqrt) && 0.0 < Length(s, sqrt)
    ensures Dist2(PointAt(s, h / Length(s, sqrt)), s.p1) == h * h
  {
    LengthPositive(s, sqrt);
    DivTimes(h, Length(s, sqrt));
    ScaledDistance(s, h / Length(s, sqrt), Length(s, sqrt), h);
  }

  /** The k-th interior sample of `split_lineseg2` lies k * dim from p1. */
  lemma SampleDistance(dim: real, s: Segment, sqrt: real -> real, k: int)
    requires IsSqrt(sqrt) && 0.0 < dim
    requires 1 <= k <= SampleCount(Length(s, sqrt), dim)
    ensures Dist2(Samples(s, dim, sqrt)[k - 1], s.p1) == (k as real * dim) * (k as real * dim)
  {
    SampleParameter(s, dim, sqrt, k);
    HeightDistance(s, sqrt, k as real * dim);
  }

  /**
   * For dim > 0 every point `split_lineseg2` returns lies on the wall, and the
   * k-th interior sample lies k * dim from p1.
   */
  lemma SubdivisionOnWall(dim: real, s: Segment, sqrt: real -> real)
    requires IsSqrt(sqrt) && 0.0 < dim
    ensures forall k :: 0 <= k < |Subdivision(dim, s, sqrt)| ==> OnSegment(Subdivision(dim, s, sqrt)[k], s)
    ensures forall k :: 1 <= k <= SampleCount(Length(s, sqrt), dim) ==>
      Dist2(Subdivision(dim, s, sqrt)[k], s.p1) == (k as real * dim) * (k as real * dim)
  {
    var r := Subdivision(dim, s, sqrt);
    var samples := Samples(s, dim, sqrt);
    forall k | 0 <= k < |r|
      ensures OnSegment(r[k], s)
    {
      if k == 0 {
        assert r[k] == PointAt(s, 0.0);
      } else if k <= |samples| {
        SampleParameter(s, dim, sqrt, k);
        assert r[k] == samples[k - 1];
      } else {
        assert r[k] == PointAt(s, 1.0);
      }
    }
    forall k | 1 <= k <= SampleCount(Length(s, sqrt), dim)
      ensures Dist2(r[k], s.p1) == (k as real * dim) * (k as real * dim)
    {
      SampleDistance(dim, s, sqrt, k);
      assert r[k] == samples[k - 1];
    }
  }

  /**
   * For dim > 0 and a wall of non-zero length, `split_lineseg2` returns p1
   * first and p2 last, n + 1 points when the length is the exact multiple
   * n * dim (the last sample is p2 itself) and n + 2 points otherwise, where
   * n = floor(length / dim).
   */
  lemma SubdivisionShape(dim: real, s: Segment, sqrt: real -> real)
    requires IsSqrt(sqrt) && 0.0 < dim && s.p1 != s.p2
    ensures Subdivision(dim, s, sqrt)[0] == s.p1
    ensures Subdivision(dim, s, sqrt)[|Subdivision(dim, s, sqrt)| - 1] == s.p2
    ensures 0 <= SampleCount(Length(s, sqrt), dim)
    ensures |Subdivision(dim, s, sqrt)| ==
      if SampleCount(Length(s, sqrt), dim) as real * dim == Length(s, sqrt)
      then SampleCount(Length(s, sqrt), dim) + 1
      else SampleCount(Length(s, sqrt), dim) + 2
  {
    var length := Length(s, sqrt);
    var n := SampleCount(length, dim);
    var samples := Samples(s, dim, sqrt);
    LengthPositive(s, sqrt);
    assert 0.0 <= length / dim;
    if n == 0 {
      assert n as real * dim != length;
    } else {
      SampleParameter(s, dim, sqrt, n);
      var u := n as real * dim / length;
      if n as real * dim == length {
        assert u == 1.0;
        assert samples[n - 1] == PointAt(s, 1.0);
      } else {
        if samples[n - 1] == s.p2 {
          assert PointAt(s, u) == PointAt(s, 1.0);
          PointAtInjective(s, u, 1.0);
        }
      }
    }
  }
}
