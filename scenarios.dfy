/**
 * Configurations taken from the repository's own tests (src/google_test.cpp),
 * stated as lemmas about the model. Every step on literal coordinates is a
 * lemma of its own: the norm comparisons that drive the constructor's swaps,
 * the vertex order they produce, the raw planes, and the side tests.
 */
module Scenarios {
  import V = Vectors
  import P = Points
  import Pl = Planes
  import L = Lines
  import opened Triangles
  import opened Intersection

  // Intersection3D_1 (src/google_test.cpp lines 86-97).

  lemma NormAFirst3D1()
    ensures NormLe(P.Point(1.0, 0.0, 0.0), P.Point(0.0, 1.0, 0.0))
  {
  }

  lemma NormBFirst3D1()
    ensures NormLe(P.Point(0.0, 1.0, 0.0), P.Point(0.0, 0.0, 1.0))
  {
  }

  lemma NormASecond3D1()
    ensures NormLe(P.Point(0.0, 0.0, 0.0), P.Point(1.0, 1.0, 1.0))
  {
  }

  lemma NormBSecond3D1()
    ensures NormLe(P.Point(1.0, 1.0, 1.0), P.Point(-2.0, 2.0, 2.0))
  {
  }

  /** Three points of equal norm 1: every swap fires and the order is reversed. */
  lemma OrderFirst3D1()
    ensures Reorder(P.Point(1.0, 0.0, 0.0), P.Point(0.0, 1.0, 0.0), P.Point(0.0, 0.0, 1.0)) ==
      (P.Point(0.0, 0.0, 1.0), P.Point(0.0, 1.0, 0.0), P.Point(1.0, 0.0, 0.0))
  {
    NormAFirst3D1();
    NormBFirst3D1();
  }

  lemma OrderSecond3D1()
    ensures Reorder(P.Point(0.0, 0.0, 0.0), P.Point(1.0, 1.0, 1.0), P.Point(-2.0, 2.0, 2.0)) ==
      (P.Point(-2.0, 2.0, 2.0), P.Point(1.0, 1.0, 1.0), P.Point(0.0, 0.0, 0.0))
  {
    NormASecond3D1();
    NormBSecond3D1();
  }

  lemma KindFirst3D1()
    ensures Classify(P.Point(0.0, 0.0, 1.0), P.Point(0.0, 1.0, 0.0), P.Point(1.0, 0.0, 0.0)) == TriangleKind
  {
  }

  lemma TriangleFirst3D1()
    ensures Construct(P.Point(1.0, 0.0, 0.0), P.Point(0.0, 1.0, 0.0), P.Point(0.0, 0.0, 1.0), 0) ==
      Triangle(P.Point(0.0, 0.0, 1.0), P.Point(0.0, 1.0, 0.0), P.Point(1.0, 0.0, 0.0), TriangleKind, 0)
  {
    OrderFirst3D1();
    KindFirst3D1();
  }

  lemma KindSecond3D1()
    ensures Classify(P.Point(-2.0, 2.0, 2.0), P.Point(1.0, 1.0, 1.0), P.Point(0.0, 0.0, 0.0)) == TriangleKind
  {
  }

  lemma TriangleSecond3D1()
    ensures Construct(P.Point(0.0, 0.0, 0.0), P.Point(1.0, 1.0, 1.0), P.Point(-2.0, 2.0, 2.0), 1) ==
      Triangle(P.Point(-2.0, 2.0, 2.0), P.Point(1.0, 1.0, 1.0), P.Point(0.0, 0.0, 0.0), TriangleKind, 1)
  {
    OrderSecond3D1();
    KindSecond3D1();
  }

  lemma PlaneFirst3D1()
    ensures RawPlaneOf(Triangle(P.Point(0.0, 0.0, 1.0), P.Point(0.0, 1.0, 0.0), P.Point(1.0, 0.0, 0.0), TriangleKind, 0)) ==
      Pl.Plane(-1.0, -1.0, -1.0, 1.0, V.Vector(-1.0, -1.0, -1.0))
  {
  }

  lemma PlaneSecond3D1()
    ensures RawPlaneOf(Triangle(P.Point(-2.0, 2.0, 2.0), P.Point(1.0, 1.0, 1.0), P.Point(0.0, 0.0, 0.0), TriangleKind, 1)) ==
      Pl.Plane(0.0, 4.0, -4.0, 0.0, V.Vector(0.0, 4.0, -4.0))
  {
  }

  /** (1, 1, 1) is below and (0, 0, 0) above the plane -x - y - z + 1 = 0. */
  lemma StraddlesFirst3D1()
    ensures !StrictlyOneSide(Pl.Plane(-1.0, -1.0, -1.0, 1.0, V.Vector(-1.0, -1.0, -1.0)),
                             Triangle(P.Point(-2.0, 2.0, 2.0), P.Point(1.0, 1.0, 1.0), P.Point(0.0, 0.0, 0.0), TriangleKind, 1))
  {
  }

  /** (0, 0, 1) is below and (0, 1, 0) above the plane 4y - 4z = 0. */
  lemma StraddlesSecond3D1()
    ensures !StrictlyOneSide(Pl.Plane(0.0, 4.0, -4.0, 0.0, V.Vector(0.0, 4.0, -4.0)),
                             Triangle(P.Point(0.0, 0.0, 1.0), P.Point(0.0, 1.0, 0.0), P.Point(1.0, 0.0, 0.0), TriangleKind, 0))
  {
  }

  lemma Accepted3D1()
    ensures Intersect3D(Triangle(P.Point(0.0, 0.0, 1.0), P.Point(0.0, 1.0, 0.0), P.Point(1.0, 0.0, 0.0), TriangleKind, 0),
                        Triangle(P.Point(-2.0, 2.0, 2.0), P.Point(1.0, 1.0, 1.0), P.Point(0.0, 0.0, 0.0), TriangleKind, 1))
  {
    PlaneFirst3D1();
    PlaneSecond3D1();
    StraddlesFirst3D1();
    StraddlesSecond3D1();
  }

  /**
   * Intersection3D_1: each triangle has vertices on both sides of the
   * other's plane, so no rejection fires and the answer is true, as the
   * test expects.
   */
  lemma Scenario3D1()
    ensures Intersect3D(Construct(P.Point(1.0, 0.0, 0.0), P.Point(0.0, 1.0, 0.0), P.Point(0.0, 0.0, 1.0), 0),
                        Construct(P.Point(0.0, 0.0, 0.0), P.Point(1.0, 1.0, 1.0), P.Point(-2.0, 2.0, 2.0), 1))
  {
    TriangleFirst3D1();
    TriangleSecond3D1();
    Accepted3D1();
  }

  // Intersection3D_4 (src/google_test.cpp lines 125-136).

  const First3D4: Triangle := Triangle(P.Point(-1.0, 5.0, 4.0), P.Point(0.0, 0.0, 1.0), P.Point(0.0, 1.0, 0.0), TriangleKind, 0)
  const Second3D4: Triangle := Triangle(P.Point(-2.0, 2.0, 2.0), P.Point(-1.0, -2.0, -1.0), P.Point(-1.0, -1.0, -1.0), TriangleKind, 1)
  /** The plane 8x + y + z - 1 = 0 through the first triangle. */
  const Plane3D4: Pl.Plane := Pl.Plane(8.0, 1.0, 1.0, -1.0, V.Vector(8.0, 1.0, 1.0))

  lemma NormAFirst3D4()
    ensures !NormLe(P.Point(-1.0, 5.0, 4.0), P.Point(0.0, 1.0, 0.0))
  {
  }

  lemma NormBFirst3D4()
    ensures !NormLe(P.Point(-1.0, 5.0, 4.0), P.Point(0.0, 0.0, 1.0))
  {
  }

  lemma NormCFirst3D4()
    ensures NormLe(P.Point(0.0, 1.0, 0.0), P.Point(0.0, 0.0, 1.0))
  {
  }

  lemma NormASecond3D4()
    ensures !NormLe(P.Point(-1.0, -2.0, -1.0), P.Point(-1.0, -1.0, -1.0))
  {
  }

  lemma NormBSecond3D4()
    ensures NormLe(P.Point(-1.0, -2.0, -1.0), P.Point(-2.0, 2.0, 2.0))
  {
  }

  lemma NormCSecond3D4()
    ensures NormLe(P.Point(-1.0, -1.0, -1.0), P.Point(-1.0, -2.0, -1.0))
  {
  }

  lemma OrderFirst3D4()
    ensures Reorder(P.Point(-1.0, 5.0, 4.0), P.Point(0.0, 1.0, 0.0), P.Point(0.0, 0.0, 1.0)) ==
      (P.Point(-1.0, 5.0, 4.0), P.Point(0.0, 0.0, 1.0), P.Point(0.0, 1.0, 0.0))
  {
    NormAFirst3D4();
    NormBFirst3D4();
    NormCFirst3D4();
  }

  lemma OrderSecond3D4()
    ensures Reorder(P.Point(-1.0, -2.0, -1.0), P.Point(-1.0, -1.0, -1.0), P.Point(-2.0, 2.0, 2.0)) ==
      (P.Point(-2.0, 2.0, 2.0), P.Point(-1.0, -2.0, -1.0), P.Point(-1.0, -1.0, -1.0))
  {
    NormASecond3D4();
    NormBSecond3D4();
    NormCSecond3D4();
  }

  lemma KindFirst3D4()
    ensures Classify(P.Point(-1.0, 5.0, 4.0), P.Point(0.0, 0.0, 1.0), P.Point(0.0, 1.0, 0.0)) == TriangleKind
  {
  }

  lemma TriangleFirst3D4()
    ensures Construct(P.Point(-1.0, 5.0, 4.0), P.Point(0.0, 1.0, 0.0), P.Point(0.0, 0.0, 1.0), 0) ==
      Triangle(P.Point(-1.0, 5.0, 4.0), P.Point(0.0, 0.0, 1.0), P.Point(0.0, 1.0, 0.0), TriangleKind, 0)
  {
    OrderFirst3D4();
    KindFirst3D4();
  }

  lemma KindSecond3D4()
    ensures Classify(P.Point(-2.0, 2.0, 2.0), P.Point(-1.0, -2.0, -1.0), P.Point(-1.0, -1.0, -1.0)) == TriangleKind
  {
  }

  lemma TriangleSecond3D4()
    ensures Construct(P.Point(-1.0, -2.0, -1.0), P.Point(-1.0, -1.0, -1.0), P.Point(-2.0, 2.0, 2.0), 1) ==
      Triangle(P.Point(-2.0, 2.0, 2.0), P.Point(-1.0, -2.0, -1.0), P.Point(-1.0, -1.0, -1.0), TriangleKind, 1)
  {
    OrderSecond3D4();
    KindSecond3D4();
  }

  lemma PlaneFirst3D4()
    ensures ValidVertices(First3D4) && RawPlaneOf(First3D4) == Plane3D4
  {
  }

  lemma BelowFirst3D4()
    ensures Pl.Substitute(Pl.Plane(8.0, 1.0, 1.0, -1.0, V.Vector(8.0, 1.0, 1.0)), P.Point(-2.0, 2.0, 2.0)) == -13.0
  {
  }

  lemma BelowSecond3D4()
    ensures Pl.Substitute(Pl.Plane(8.0, 1.0, 1.0, -1.0, V.Vector(8.0, 1.0, 1.0)), P.Point(-1.0, -2.0, -1.0)) == -12.0
  {
  }

  lemma BelowThird3D4()
    ensures Pl.Substitute(Pl.Plane(8.0, 1.0, 1.0, -1.0, V.Vector(8.0, 1.0, 1.0)), P.Point(-1.0, -1.0, -1.0)) == -11.0
  {
  }

  /** All three vertices of the second triangle give a negative value in 8x + y + z - 1. */
  lemma Below3D4()
    ensures ValidVertices(Second3D4) && StrictlyOneSide(Plane3D4, Second3D4)
  {
    BelowFirst3D4();
    BelowSecond3D4();
    BelowThird3D4();
  }

  lemma Rejected3D4()
    ensures !Intersect3D(First3D4, Second3D4)
  {
    PlaneFirst3D4();
    Below3D4();
  }

  /**
   * Intersection3D_4: the second triangle lies strictly on one side of the
   * first one's plane, so the answer is false, as the test expects.
   */
  lemma Scenario3D4()
    ensures !Intersect3D(Construct(P.Point(-1.0, 5.0, 4.0), P.Point(0.0, 1.0, 0.0), P.Point(0.0, 0.0, 1.0), 0),
                         Construct(P.Point(-1.0, -2.0, -1.0), P.Point(-1.0, -1.0, -1.0), P.Point(-2.0, 2.0, 2.0), 1))
  {
    TriangleFirst3D4();
    TriangleSecond3D4();
    Rejected3D4();
  }

  // Intersection2D_6 (src/google_test.cpp lines 73-84).

  const First2D6: Triangle := Triangle(P.Point(0.0, 0.0, 1.0), P.Point(0.0, 1.0, 0.0), P.Point(0.0, 0.0, 0.0), TriangleKind, 0)
  const Second2D6: Triangle := Triangle(P.Point(0.0, 2.0, 0.0), P.Point(0.0, 0.5, 1.0), P.Point(0.0, 1.1, 0.0), TriangleKind, 1)
  /** The plane -x = 0 through the first triangle. */
  const FirstPlane2D6: Pl.Plane := Pl.Plane(-1.0, 0.0, 0.0, 0.0, V.Vector(-1.0, 0.0, 0.0))
  /** The plane 0.9x = 0 through the second triangle. */
  const SecondPlane2D6: Pl.Plane := Pl.Plane(0.9, 0.0, 0.0, 0.0, V.Vector(0.9, 0.0, 0.0))

  lemma NormAFirst2D6()
    ensures NormLe(P.Point(0.0, 0.0, 0.0), P.Point(0.0, 1.0, 0.0))
  {
  }

  lemma NormBFirst2D6()
    ensures NormLe(P.Point(0.0, 1.0, 0.0), P.Point(0.0, 0.0, 1.0))
  {
  }

  lemma NormASecond2D6()
    ensures NormLe(P.Point(0.0, 1.1, 0.0), P.Point(0.0, 2.0, 0.0))
  {
  }

  lemma NormBSecond2D6()
    ensures !NormLe(P.Point(0.0, 2.0, 0.0), P.Point(0.0, 0.5, 1.0))
  {
  }

  lemma NormCSecond2D6()
    ensures NormLe(P.Point(0.0, 1.1, 0.0), P.Point(0.0, 0.5, 1.0))
  {
  }

  lemma OrderFirst2D6()
    ensures Reorder(P.Point(0.0, 0.0, 0.0), P.Point(0.0, 1.0, 0.0), P.Point(0.0, 0.0, 1.0)) ==
      (P.Point(0.0, 0.0, 1.0), P.Point(0.0, 1.0, 0.0), P.Point(0.0, 0.0, 0.0))
  {
    NormAFirst2D6();
    NormBFirst2D6();
  }

  lemma OrderSecond2D6()
    ensures Reorder(P.Point(0.0, 1.1, 0.0), P.Point(0.0, 2.0, 0.0), P.Point(0.0, 0.5, 1.0)) ==
      (P.Point(0.0, 2.0, 0.0), P.Point(0.0, 0.5, 1.0), P.Point(0.0, 1.1, 0.0))
  {
    NormASecond2D6();
    NormBSecond2D6();
    NormCSecond2D6();
  }

  lemma KindFirst2D6()
    ensures Classify(P.Point(0.0, 0.0, 1.0), P.Point(0.0, 1.0, 0.0), P.Point(0.0, 0.0, 0.0)) == TriangleKind
  {
  }

  lemma TriangleFirst2D6()
    ensures Construct(P.Point(0.0, 0.0, 0.0), P.Point(0.0, 1.0, 0.0), P.Point(0.0, 0.0, 1.0), 0) ==
      Triangle(P.Point(0.0, 0.0, 1.0), P.Point(0.0, 1.0, 0.0), P.Point(0.0, 0.0, 0.0), TriangleKind, 0)
  {
    OrderFirst2D6();
    KindFirst2D6();
  }

  lemma KindSecond2D6()
    ensures Classify(P.Point(0.0, 2.0, 0.0), P.Point(0.0, 0.5, 1.0), P.Point(0.0, 1.1, 0.0)) == TriangleKind
  {
  }

  lemma TriangleSecond2D6()
    ensures Construct(P.Point(0.0, 1.1, 0.0), P.Point(0.0, 2.0, 0.0), P.Point(0.0, 0.5, 1.0), 1) ==
      Triangle(P.Point(0.0, 2.0, 0.0), P.Point(0.0, 0.5, 1.0), P.Point(0.0, 1.1, 0.0), TriangleKind, 1)
  {
    OrderSecond2D6();
    KindSecond2D6();
  }

  lemma PlaneFirst2D6()
    ensures ValidVertices(First2D6) && RawPlaneOf(First2D6) == FirstPlane2D6
  {
  }

  lemma PlaneSecond2D6()
    ensures ValidVertices(Second2D6) && RawPlaneOf(Second2D6) == SecondPlane2D6
  {
  }

  /** The first vertex of each triangle lies on the other's plane x = 0, so neither side test fires. */
  lemma StraddlesFirst2D6()
    ensures ValidVertices(Second2D6) && !StrictlyOneSide(FirstPlane2D6, Second2D6)
  {
  }

  lemma StraddlesSecond2D6()
    ensures ValidVertices(First2D6) && !StrictlyOneSide(SecondPlane2D6, First2D6)
  {
  }

  lemma Coplanar2D6()
    ensures Intersect3D(First2D6, Second2D6)
  {
    PlaneFirst2D6();
    PlaneSecond2D6();
    StraddlesFirst2D6();
    StraddlesSecond2D6();
  }

  /**
   * Intersection2D_6: two triangles of the plane x = 0 that do not overlap.
   * No side test rejects them and both planes pass through the origin, so
   * the pair reaches the 2D stub and the answer is true, where the test
   * expects false.
   */
  lemma Scenario2D6()
    ensures Intersect3D(Construct(P.Point(0.0, 0.0, 0.0), P.Point(0.0, 1.0, 0.0), P.Point(0.0, 0.0, 1.0), 0),
                        Construct(P.Point(0.0, 1.1, 0.0), P.Point(0.0, 2.0, 0.0), P.Point(0.0, 0.5, 1.0), 1))
  {
    TriangleFirst2D6();
    TriangleSecond2D6();
    Coplanar2D6();
  }
}
