/** Triangle-triangle intersection (include/triangles.hpp lines 70-218). */
module Intersection {
  import opened Config
  import V = Vectors
  import P = Points
  import Pl = Planes
  import opened Triangles

  /** Three signed values all strictly negative or all strictly positive. */
  predicate SameStrictSide(s1: real, s2: real, s3: real)
  {
    (s1 < 0.0 && s2 < 0.0 && s3 < 0.0) || (s1 > 0.0 && s2 > 0.0 && s3 > 0.0)
  }

  predicate ValidVertices(t: Triangle)
  {
    P.Valid(t.a) && P.Valid(t.b) && P.Valid(t.c)
  }

  /** The plane through a triangle's vertices, before normalisation. */
  function RawPlaneOf(t: Triangle): Pl.Plane
    requires ValidVertices(t)
  {
    Pl.RawPlane(t.a, t.b, t.c)
  }

  /** All three vertices of t lie strictly on one side of plane pl. */
  predicate StrictlyOneSide(pl: Pl.Plane, t: Triangle)
    requires ValidVertices(t)
  {
    SameStrictSide(Pl.Substitute(pl, t.a), Pl.Substitute(pl, t.b), Pl.Substitute(pl, t.c))
  }

  /**
   * intersect_triangle_with_triangle_in_2D: a stub that reports an
   * intersection for every pair of coplanar triangles.
   */
  function Intersect2D(t1: Triangle, t2: Triangle): bool
  {
    true
  }

  /**
   * intersect_triangle_with_triangle_in_3D as written: build both normalised
   * planes (len1 and len2 are the square roots the constructor takes), reject
   * when the vertices of one triangle are strictly on one side of the other's
   * plane, hand planes with equal or opposite D to the 2D test, and otherwise
   * report an intersection (the line of intersection is only computed and
   * printed). The vertices must be valid because a plane is built from them.
   */
  function Intersect3DWithLengths(t1: Triangle, t2: Triangle, len1: real, len2: real): bool
    requires ValidVertices(t1) && ValidVertices(t2)
    requires Pl.IsNormalLength(RawPlaneOf(t1), len1)
    requires Pl.IsNormalLength(RawPlaneOf(t2), len2)
  {
    var plane1 := Pl.MakePlane(t1.a, t1.b, t1.c, len1);
    var plane2 := Pl.MakePlane(t2.a, t2.b, t2.c, len2);
    if StrictlyOneSide(plane1, t2) then false
    else if StrictlyOneSide(plane2, t1) then false
    else if plane1.d == plane2.d || -plane1.d == plane2.d then Intersect2D(t1, t2)
    else true
  }

  /**
   * The same test without square roots: on raw planes. With an invalid
   * vertex every comparison involves NaN and fails, so no rejection fires
   * and the answer is true.
   */
  function Intersect3D(t1: Triangle, t2: Triangle): bool
  {
    if ValidVertices(t1) && ValidVertices(t2) then
      !StrictlyOneSide(RawPlaneOf(t1), t2) && !StrictlyOneSide(RawPlaneOf(t2), t1)
    else true
  }

  /** Normalising the planes changes no side test, so the answer never depends on the lengths. */
  lemma Intersect3DLengthsIrrelevant(t1: Triangle, t2: Triangle, len1: real, len2: real)
    requires ValidVertices(t1) && ValidVertices(t2)
    requires Pl.IsNormalLength(RawPlaneOf(t1), len1)
    requires Pl.IsNormalLength(RawPlaneOf(t2), len2)
    ensures Intersect3DWithLengths(t1, t2, len1, len2) == Intersect3D(t1, t2)
  {
    var raw1, raw2 := RawPlaneOf(t1), RawPlaneOf(t2);
    Pl.NormalizePlaneKeepsSide(raw1, len1, t2.a);
    Pl.NormalizePlaneKeepsSide(raw1, len1, t2.b);
    Pl.NormalizePlaneKeepsSide(raw1, len1, t2.c);
    Pl.NormalizePlaneKeepsSide(raw2, len2, t1.a);
    Pl.NormalizePlaneKeepsSide(raw2, len2, t1.b);
    Pl.NormalizePlaneKeepsSide(raw2, len2, t1.c);
  }

  /**
   * check_intersection: two TRIANGLE triangles go to the 3D test, two POINT
   * triangles intersect when their (single) points are equal; every other
   * combination reports false, since those branches are commented out.
   */
  function CheckIntersection(t1: Triangle, t2: Triangle): bool
  {
    if t1.kind == TriangleKind && t2.kind == TriangleKind then Intersect3D(t1, t2)
    else if t1.kind == PointKind && t2.kind == PointKind then t1.a == t2.a
    else false
  }

  lemma CheckIntersectionSymmetric(t1: Triangle, t2: Triangle)
    ensures CheckIntersection(t1, t2) == CheckIntersection(t2, t1)
  {
  }

  /** A TRIANGLE or POINT triangle intersects itself. */
  lemma CheckIntersectionReflexive(t: Triangle)
    requires WellFormed(t) && (t.kind == TriangleKind || t.kind == PointKind)
    ensures CheckIntersection(t, t)
  {
    if t.kind == TriangleKind {
      Pl.RawPlaneThroughPoints(t.a, t.b, t.c);
    }
  }

  /** Only TRIANGLE-TRIANGLE and POINT-POINT pairs can be reported. */
  lemma CheckIntersectionKinds(t1: Triangle, t2: Triangle)
    requires CheckIntersection(t1, t2)
    ensures (t1.kind == TriangleKind && t2.kind == TriangleKind) ||
            (t1.kind == PointKind && t2.kind == PointKind && t1.a == t2.a)
  {
  }

  /** l1, l2, l3 are barycentric weights of a point of the (closed) triangle. */
  predicate Weights(l1: real, l2: real, l3: real)
  {
    l1 >= 0.0 && l2 >= 0.0 && l3 >= 0.0 && l1 + l2 + l3 == 1.0
  }

  /** The point with barycentric weights l1, l2, l3 over the vertices of t. */
  function Combine(t: Triangle, l1: real, l2: real, l3: real): P.Point
    requires ValidVertices(t)
  {
    P.Point(l1 * t.a.x + l2 * t.b.x + l3 * t.c.x,
            l1 * t.a.y + l2 * t.b.y + l3 * t.c.y,
            l1 * t.a.z + l2 * t.b.z + l3 * t.c.z)
  }

  /** The plane equation is affine: at a weighted point it is the weighted sum. */
  lemma SubstituteCombine(pl: Pl.Plane, t: Triangle, l1: real, l2: real, l3: real)
    requires ValidVertices(t) && l1 + l2 + l3 == 1.0
    ensures Pl.Substitute(pl, Combine(t, l1, l2, l3)) ==
      l1 * Pl.Substitute(pl, t.a) + l2 * Pl.Substitute(pl, t.b) + l3 * Pl.Substitute(pl, t.c)
  {
    var q := Combine(t, l1, l2, l3);
    assert pl.d == l1 * pl.d + l2 * pl.d + l3 * pl.d;
    assert pl.a * q.x == l1 * (pl.a * t.a.x) + l2 * (pl.a * t.b.x) + l3 * (pl.a * t.c.x);
    assert pl.b * q.y == l1 * (pl.b * t.a.y) + l2 * (pl.b * t.b.y) + l3 * (pl.b * t.c.y);
    assert pl.c * q.z == l1 * (pl.c * t.a.z) + l2 * (pl.c * t.b.z) + l3 * (pl.c * t.c.z);
  }

  /** A weighted average of three values of one strict sign has that sign. */
  lemma WeightedSumKeepsSign(l1: real, l2: real, l3: real, s1: real, s2: real, s3: real)
    requires Weights(l1, l2, l3) && SameStrictSide(s1, s2, s3)
    ensures l1 * s1 + l2 * s2 + l3 * s3 != 0.0
  {
    if s1 < 0.0 {
      NonPositiveProduct(l1, s1);
      NonPositiveProduct(l2, s2);
      NonPositiveProduct(l3, s3);
      if l1 > 0.0 {
        NegativeProduct(l1, s1);
      } else if l2 > 0.0 {
        NegativeProduct(l2, s2);
      } else {
        NegativeProduct(l3, s3);
      }
    } else {
      NonPositiveProduct(l1, -s1);
      NonPositiveProduct(l2, -s2);
      NonPositiveProduct(l3, -s3);
      if l1 > 0.0 {
        NegativeProduct(l1, -s1);
      } else if l2 > 0.0 {
        NegativeProduct(l2, -s2);
      } else {
        NegativeProduct(l3, -s3);
      }
    }
  }

  lemma NonPositiveProduct(l: real, s: real)
    requires l >= 0.0 && s < 0.0
    ensures l * s <= 0.0 && l * (-s) >= 0.0
  {
    assert l * (-s) >= 0.0 * (-s);
  }

  lemma NegativeProduct(l: real, s: real)
    requires l > 0.0 && s < 0.0
    ensures l * s < 0.0
  {
    assert l * (-s) > 0.0 * (-s);
  }

  /**
   * Soundness of the two rejections: when Intersect3D says false, no point
   * of the first triangle (its vertices and everything between them) is a
   * point of the second.
   */
  lemma RejectionSound(t1: Triangle, t2: Triangle,
                       l1: real, l2: real, l3: real, m1: real, m2: real, m3: real)
    requires ValidVertices(t1) && ValidVertices(t2) && !Intersect3D(t1, t2)
    requires Weights(l1, l2, l3) && Weights(m1, m2, m3)
    ensures Combine(t1, l1, l2, l3) != Combine(t2, m1, m2, m3)
  {
    var raw1, raw2 := RawPlaneOf(t1), RawPlaneOf(t2);
    Pl.RawPlaneThroughPoints(t1.a, t1.b, t1.c);
    Pl.RawPlaneThroughPoints(t2.a, t2.b, t2.c);
    var q1, q2 := Combine(t1, l1, l2, l3), Combine(t2, m1, m2, m3);
    if StrictlyOneSide(raw1, t2) {
      SubstituteCombine(raw1, t1, l1, l2, l3);
      SubstituteCombine(raw1, t2, m1, m2, m3);
      WeightedSumKeepsSign(m1, m2, m3,
        Pl.Substitute(raw1, t2.a), Pl.Substitute(raw1, t2.b), Pl.Substitute(raw1, t2.c));
      assert Pl.Substitute(raw1, q1) == 0.0;
      assert Pl.Substitute(raw1, q2) != 0.0;
    } else {
      SubstituteCombine(raw2, t2, m1, m2, m3);
      SubstituteCombine(raw2, t1, l1, l2, l3);
      WeightedSumKeepsSign(l1, l2, l3,
        Pl.Substitute(raw2, t1.a), Pl.Substitute(raw2, t1.b), Pl.Substitute(raw2, t1.c));
      assert Pl.Substitute(raw2, q2) == 0.0;
      assert Pl.Substitute(raw2, q1) != 0.0;
    }
  }
}
