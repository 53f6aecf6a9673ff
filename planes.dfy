/** Planes A x + B y + C z + D = 0 (include/plane.hpp). */
module Planes {
  import opened Config
  import V = Vectors
  import P = Points

  /**
   * A plane with its coefficients and the normal (A, B, C) recorded when
   * the plane was built, before normalisation: the normal keeps its
   * original length.
   */
  datatype Plane = Plane(a: real, b: real, c: real, d: real, normal: V.Vector)

  /** substitute: the left-hand side of the plane equation at point p. */
  function Substitute(pl: Plane, p: P.Point): real
    requires P.Valid(p)
  {
    pl.a * p.x + pl.b * p.y + pl.c * p.z + pl.d
  }

  /** The squared length of the coefficient vector (A, B, C). */
  function NormalSquared(pl: Plane): real
  {
    pl.a * pl.a + pl.b * pl.b + pl.c * pl.c
  }

  /** len is what std::sqrt returns for the squared length of (A, B, C). */
  ghost predicate IsNormalLength(pl: Plane, len: real)
  {
    len >= 0.0 && len * len == NormalSquared(pl)
  }

  /**
   * The coefficients computed by the constructor from three points, before
   * normalisation: (A, B, C) is the cross product of b - a and c - a and D
   * makes a lie on the plane.
   */
  function RawPlane(p: P.Point, q: P.Point, r: P.Point): (pl: Plane)
    requires P.Valid(p) && P.Valid(q) && P.Valid(r)
    ensures V.Vector(pl.a, pl.b, pl.c) == V.Cross(P.Minus(q, p), P.Minus(r, p))
    ensures pl.normal == V.Vector(pl.a, pl.b, pl.c)
    ensures Substitute(pl, p) == 0.0
  {
    var a := (q.y - p.y) * (r.z - p.z) - (q.z - p.z) * (r.y - p.y);
    var b := (q.z - p.z) * (r.x - p.x) - (q.x - p.x) * (r.z - p.z);
    var c := (q.x - p.x) * (r.y - p.y) - (q.y - p.y) * (r.x - p.x);
    Plane(a, b, c, -(a * p.x + b * p.y + c * p.z), V.Vector(a, b, c))
  }

  /** All three defining points satisfy the un-normalised plane equation. */
  lemma RawPlaneThroughPoints(p: P.Point, q: P.Point, r: P.Point)
    requires P.Valid(p) && P.Valid(q) && P.Valid(r)
    ensures Substitute(RawPlane(p, q, r), p) == 0.0
    ensures Substitute(RawPlane(p, q, r), q) == 0.0
    ensures Substitute(RawPlane(p, q, r), r) == 0.0
  {
    var pl := RawPlane(p, q, r);
    var u, w := P.Minus(q, p), P.Minus(r, p);
    V.CrossOrthogonal(u, w);
    assert Substitute(pl, q) == pl.a * u.x + pl.b * u.y + pl.c * u.z;
    assert Substitute(pl, r) == pl.a * w.x + pl.b * w.y + pl.c * w.z;
  }

  /** The nine-coordinate constructor computes the same coefficients as the three-point one. */
  function RawPlaneFromCoordinates(x1: real, y1: real, z1: real,
                                   x2: real, y2: real, z2: real,
                                   x3: real, y3: real, z3: real): (pl: Plane)
    ensures pl == RawPlane(P.Point(x1, y1, z1), P.Point(x2, y2, z2), P.Point(x3, y3, z3))
  {
    var a := (y2 - y1) * (z3 - z1) - (z2 - z1) * (y3 - y1);
    var b := (z2 - z1) * (x3 - x1) - (x2 - x1) * (z3 - z1);
    var c := (x2 - x1) * (y3 - y1) - (y2 - y1) * (x3 - x1);
    Plane(a, b, c, -(a * x1 + b * y1 + c * z1), V.Vector(a, b, c))
  }

  /**
   * normalize_plane: divide all four coefficients by the length of (A, B, C)
   * unless that length is within epsilon of zero (a degenerate plane, left
   * as it is). The recorded normal is not touched.
   */
  function NormalizePlane(pl: Plane, len: real): (r: Plane)
    requires IsNormalLength(pl, len)
    ensures r.normal == pl.normal
    ensures Cmp(len, 0.0) ==> r == pl
    ensures !Cmp(len, 0.0) ==>
      len > 0.0 && r.a * len == pl.a && r.b * len == pl.b && r.c * len == pl.c && r.d * len == pl.d
  {
    if Cmp(len, 0.0) then pl
    else Plane(pl.a / len, pl.b / len, pl.c / len, pl.d / len, pl.normal)
  }

  /** A plane scaled by a positive factor gives every point a value of the same sign. */
  lemma NormalizePlaneKeepsSide(pl: Plane, len: real, p: P.Point)
    requires IsNormalLength(pl, len) && P.Valid(p)
    ensures Substitute(NormalizePlane(pl, len), p) < 0.0 <==> Substitute(pl, p) < 0.0
    ensures Substitute(NormalizePlane(pl, len), p) > 0.0 <==> Substitute(pl, p) > 0.0
    ensures Substitute(NormalizePlane(pl, len), p) == 0.0 <==> Substitute(pl, p) == 0.0
  {
    var r := NormalizePlane(pl, len);
    if !Cmp(len, 0.0) {
      var s, t := Substitute(r, p), Substitute(pl, p);
      assert s * len == t by {
        assert s * len == (r.a * len) * p.x + (r.b * len) * p.y + (r.c * len) * p.z + r.d * len;
      }
      PositiveFactorKeepsSign(s, len, t);
    }
  }

  lemma PositiveFactorKeepsSign(s: real, k: real, t: real)
    requires k > 0.0 && s * k == t
    ensures s < 0.0 <==> t < 0.0
    ensures s > 0.0 <==> t > 0.0
    ensures s == 0.0 <==> t == 0.0
  {
    if s < 0.0 {
      assert s * k < 0.0 * k;
    } else if s > 0.0 {
      assert s * k > 0.0 * k;
    }
  }

  /** The constructor Plane(a, b, c): coefficients from the points, then normalisation. */
  function MakePlane(p: P.Point, q: P.Point, r: P.Point, len: real): (pl: Plane)
    requires P.Valid(p) && P.Valid(q) && P.Valid(r)
    requires IsNormalLength(RawPlane(p, q, r), len)
    ensures pl.normal == V.Cross(P.Minus(q, p), P.Minus(r, p))
    ensures Substitute(pl, p) == 0.0 && Substitute(pl, q) == 0.0 && Substitute(pl, r) == 0.0
  {
    var raw := RawPlane(p, q, r);
    RawPlaneThroughPoints(p, q, r);
    NormalizePlaneKeepsSide(raw, len, p);
    NormalizePlaneKeepsSide(raw, len, q);
    NormalizePlaneKeepsSide(raw, len, r);
    NormalizePlane(raw, len)
  }

  /** Within epsilon, coefficient by coefficient. */
  predicate CmpAll(a: real, b: real, c: real, d: real, a': real, b': real, c': real, d': real)
  {
    Cmp(a, a') && Cmp(b, b') && Cmp(c, c') && Cmp(d, d')
  }

  /**
   * operator==: the two planes agree on all four coefficients within epsilon,
   * either as they are or after negating the first.
   */
  predicate Equal(p1: Plane, p2: Plane)
  {
    CmpAll(p1.a, p1.b, p1.c, p1.d, p2.a, p2.b, p2.c, p2.d) ||
    CmpAll(-p1.a, -p1.b, -p1.c, -p1.d, p2.a, p2.b, p2.c, p2.d)
  }

  lemma EqualReflexive(pl: Plane)
    ensures Equal(pl, pl)
  {
    CmpReflexive(pl.a);
    CmpReflexive(pl.b);
    CmpReflexive(pl.c);
    CmpReflexive(pl.d);
  }

  lemma EqualSymmetric(p1: Plane, p2: Plane)
    ensures Equal(p1, p2) <==> Equal(p2, p1)
  {
  }

  /** A plane equals the same plane written with all coefficients negated. */
  lemma EqualToNegated(pl: Plane, n: V.Vector)
    ensures Equal(pl, Plane(-pl.a, -pl.b, -pl.c, -pl.d, n))
  {
    CmpReflexive(-pl.a);
    CmpReflexive(-pl.b);
    CmpReflexive(-pl.c);
    CmpReflexive(-pl.d);
  }

  /** planes_are_parallel: the same test as Equal on A, B and C only. */
  predicate Parallel(p1: Plane, p2: Plane)
  {
    (Cmp(p1.a, p2.a) && Cmp(p1.b, p2.b) && Cmp(p1.c, p2.c)) ||
    (Cmp(-p1.a, p2.a) && Cmp(-p1.b, p2.b) && Cmp(-p1.c, p2.c))
  }

  lemma EqualPlanesAreParallel(p1: Plane, p2: Plane)
    requires Equal(p1, p2)
    ensures Parallel(p1, p2)
  {
  }

  lemma ParallelSymmetric(p1: Plane, p2: Plane)
    ensures Parallel(p1, p2) <==> Parallel(p2, p1)
  {
  }

  /** Parallel planes need not be equal: their D coefficients may differ. */
  lemma ParallelNotEqual()
    ensures var p1, p2 := Plane(0.0, 0.0, 1.0, 0.0, V.Zero), Plane(0.0, 0.0, 1.0, -1.0, V.Zero);
      Parallel(p1, p2) && !Equal(p1, p2)
  {
    var p1, p2 := Plane(0.0, 0.0, 1.0, 0.0, V.Zero), Plane(0.0, 0.0, 1.0, -1.0, V.Zero);
    CmpReflexive(0.0);
    CmpReflexive(1.0);
    assert !Cmp(0.0, -1.0) && !Cmp(-0.0, -1.0);
  }

  /**
   * get_planes_intersection_vector: the direction of the common line, the
   * cross product of the recorded normals; it is perpendicular to both.
   */
  function IntersectionVector(p1: Plane, p2: Plane): (r: V.Vector)
    ensures V.Valid(r) <==> V.Valid(p1.normal) && V.Valid(p2.normal)
    ensures V.Valid(r) ==> V.Dot(r, p1.normal) == 0.0 && V.Dot(r, p2.normal) == 0.0
  {
    if V.Valid(p1.normal) && V.Valid(p2.normal) then
      V.CrossOrthogonal(p1.normal, p2.normal);
      V.Cross(p1.normal, p2.normal)
    else
      V.Cross(p1.normal, p2.normal)
  }

  /** The three 2x2 determinants get_planes_intersection_point tests. */
  function DetX(p1: Plane, p2: Plane): real { p1.b * p2.c - p1.c * p2.b }
  function DetY(p1: Plane, p2: Plane): real { p1.a * p2.c - p1.c * p2.a }
  function DetZ(p1: Plane, p2: Plane): real { p1.a * p2.b - p1.b * p2.a }

  /**
   * get_planes_intersection_point: a point on both planes, found by fixing
   * one coordinate at zero and solving the remaining 2x2 system by Cramer's
   * rule; z = 0 is tried first, then y = 0, then x = 0. When all three
   * determinants are within epsilon of zero the source returns
   * uninitialised coordinates; the model answers NaNPoint.
   */
  function IntersectionPoint(p1: Plane, p2: Plane): (r: P.Point)
    ensures P.Valid(r) <==> !Cmp(DetZ(p1, p2), 0.0) || !Cmp(DetY(p1, p2), 0.0) || !Cmp(DetX(p1, p2), 0.0)
    ensures P.Valid(r) ==> Substitute(p1, r) == 0.0 && Substitute(p2, r) == 0.0
    ensures !Cmp(DetZ(p1, p2), 0.0) ==> r.Point? && r.z == 0.0
    ensures Cmp(DetZ(p1, p2), 0.0) && !Cmp(DetY(p1, p2), 0.0) ==> r.Point? && r.y == 0.0
    ensures Cmp(DetZ(p1, p2), 0.0) && Cmp(DetY(p1, p2), 0.0) && !Cmp(DetX(p1, p2), 0.0) ==> r.Point? && r.x == 0.0
  {
    if !Cmp(DetZ(p1, p2), 0.0) then SolveAtZ(p1, p2)
    else if !Cmp(DetY(p1, p2), 0.0) then SolveAtY(p1, p2)
    else if !Cmp(DetX(p1, p2), 0.0) then SolveAtX(p1, p2)
    else P.NaNPoint
  }

  /** The common point with z = 0 (first branch). */
  function SolveAtZ(p1: Plane, p2: Plane): (r: P.Point)
    requires DetZ(p1, p2) != 0.0
    ensures r.Point? && r.z == 0.0 && Substitute(p1, r) == 0.0 && Substitute(p2, r) == 0.0
  {
    var dz := DetZ(p1, p2);
    Cramer(p1.a, p1.b, p1.d, p2.a, p2.b, p2.d);
    P.Point((p1.b * p2.d - p2.b * p1.d) / dz, (p2.a * p1.d - p1.a * p2.d) / dz, 0.0)
  }

  /** The common point with y = 0 (second branch). */
  function SolveAtY(p1: Plane, p2: Plane): (r: P.Point)
    requires DetY(p1, p2) != 0.0
    ensures r.Point? && r.y == 0.0 && Substitute(p1, r) == 0.0 && Substitute(p2, r) == 0.0
  {
    var dy := DetY(p1, p2);
    Cramer(p1.a, p1.c, p1.d, p2.a, p2.c, p2.d);
    P.Point((p1.c * p2.d - p2.c * p1.d) / dy, 0.0, (p2.a * p1.d - p1.a * p2.d) / dy)
  }

  /** The common point with x = 0 (third branch). */
  function SolveAtX(p1: Plane, p2: Plane): (r: P.Point)
    requires DetX(p1, p2) != 0.0
    ensures r.Point? && r.x == 0.0 && Substitute(p1, r) == 0.0 && Substitute(p2, r) == 0.0
  {
    var dx := DetX(p1, p2);
    Cramer(p1.b, p1.c, p1.d, p2.b, p2.c, p2.d);
    P.Point(0.0, (p1.c * p2.d - p2.c * p1.d) / dx, (p2.b * p1.d - p1.b * p2.d) / dx)
  }

  /**
   * Cramer's rule for a1 u + b1 v + d1 = 0, a2 u + b2 v + d2 = 0 with a
   * non-zero determinant: the formulas the source uses solve the system.
   */
  lemma Cramer(a1: real, b1: real, d1: real, a2: real, b2: real, d2: real)
    requires a1 * b2 - b1 * a2 != 0.0
    ensures var det := a1 * b2 - b1 * a2;
      var u, v := (b1 * d2 - b2 * d1) / det, (a2 * d1 - a1 * d2) / det;
      a1 * u + b1 * v + d1 == 0.0 && a2 * u + b2 * v + d2 == 0.0
  {
    var det := a1 * b2 - b1 * a2;
    var u, v := (b1 * d2 - b2 * d1) / det, (a2 * d1 - a1 * d2) / det;
    assert u * det == b1 * d2 - b2 * d1;
    assert v * det == a2 * d1 - a1 * d2;
    assert (a1 * u + b1 * v + d1) * det == 0.0 by {
      assert (a1 * u + b1 * v + d1) * det == a1 * (u * det) + b1 * (v * det) + d1 * det;
    }
    assert (a2 * u + b2 * v + d2) * det == 0.0 by {
      assert (a2 * u + b2 * v + d2) * det == a2 * (u * det) + b2 * (v * det) + d2 * det;
    }
    ZeroProduct(a1 * u + b1 * v + d1, det);
    ZeroProduct(a2 * u + b2 * v + d2, det);
  }

  lemma ZeroProduct(s: real, k: real)
    requires k != 0.0 && s * k == 0.0
    ensures s == 0.0
  {
    assert s == (s * k) / k;
  }
}
