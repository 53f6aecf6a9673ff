/**
 * The earlier, namespaced draft of the Line API (lvl-1/include/line.hpp).
 * Its Line type, valid, operator== and is_point_on_line are those of Lines;
 * the intersection builds its result componentwise and the line of a
 * triangle is chosen with the tolerant point equality.
 */
module LinesLvl1 {
  import opened Config
  import V = Vectors
  import P = Points
  import opened Triangles
  import L = Lines

  /**
   * intersect_line_with_line: the default Point for invalid, parallel or
   * skew lines; otherwise line2.point - t * line2.vector, one coordinate at
   * a time through point_from_vector.
   */
  function IntersectLineWithLine(l1: L.Line, l2: L.Line): P.Point
  {
    if !L.Valid(l1) || !L.Valid(l2) then P.DefaultPoint
    else
      var denom := L.Denominator(l1, l2);
      if Cmp(denom, 0.0) then P.DefaultPoint
      else
        var s, t := L.ParamS(l1, l2), L.ParamT(l1, l2);
        if !Cmp(L.Distance(l1, l2, s, t), 0.0) then P.DefaultPoint
        else
          var d := P.PointFromVector(l2.vector);
          P.Point(l2.point.x - t * d.x, l2.point.y - t * d.y, l2.point.z - t * d.z)
  }

  /** Both drafts compute the same point for every pair of lines. */
  lemma IntersectLineWithLineAgrees(l1: L.Line, l2: L.Line)
    ensures IntersectLineWithLine(l1, l2) == L.IntersectLineWithLine(l1, l2)
  {
  }

  /**
   * get_line_from_triangle with the tolerant point equality: the default
   * line unless the triangle is a LINE; otherwise anchored at a, direction
   * c - a when a is nearly b, b - a when a is nearly c, c - a otherwise.
   */
  function LineFromTriangle(t: Triangle): (l: L.Line)
    ensures t.kind != LineKind ==> l == L.DefaultLine
    ensures t.kind == LineKind ==> l.point == t.a
    ensures t.kind == LineKind ==>
      l.vector == (if P.Equal(t.a, t.c) && !P.Equal(t.a, t.b) then P.Minus(t.b, t.a) else P.Minus(t.c, t.a))
  {
    if t.kind != LineKind then L.DefaultLine
    else if P.Equal(t.a, t.b) then L.Line(P.Minus(t.c, t.a), t.a)
    else if P.Equal(t.a, t.c) then L.Line(P.Minus(t.b, t.a), t.a)
    else L.Line(P.Minus(t.c, t.a), t.a)
  }

  /** When no two vertices are merely close, both drafts pick the same line. */
  lemma LineFromTriangleAgrees(t: Triangle)
    requires P.Equal(t.a, t.b) <==> t.a == t.b
    requires P.Equal(t.a, t.c) <==> t.a == t.c
    ensures LineFromTriangle(t) == L.LineFromTriangle(t)
  {
  }

  /** intersect_line_with_point: t2's first vertex passes the tolerant cross-product test against t1's line. */
  predicate IntersectLineWithPoint(t1: Triangle, t2: Triangle)
  {
    L.PointOnLine(t2.a, LineFromTriangle(t1))
  }

  /** Only a LINE t1 can meet anything. */
  lemma IntersectLineWithPointNotLine(t1: Triangle, t2: Triangle)
    requires t1.kind != LineKind
    ensures !IntersectLineWithPoint(t1, t2)
  {
  }

  // A LINE triangle whose first and third vertices coincide exactly while
  // the second, with the same norm, is within epsilon of them, so the
  // constructor's swaps reverse the three.

  const Near1: P.Point := P.Point(1.0, 1.0000005, 0.0)
  const Near2: P.Point := P.Point(1.0000005, 1.0, 0.0)
  const FarAway: P.Point := P.Point(0.0, 0.0, 100.0)

  lemma NearTriangleShape()
    ensures var t := Construct(Near1, Near2, Near1, 0);
      WellFormed(t) && t.kind == LineKind && t.a == Near1 && t.b == Near2 && t.c == Near1
  {
    assert P.Norm(Near1) == P.Norm(Near2);
  }

  /** A line with the zero direction passes the cross-product test for every valid point. */
  lemma ZeroDirectionAcceptsEverything(l: L.Line, p: P.Point)
    requires P.Valid(l.point) && P.Valid(p) && l.vector == V.Zero
    ensures L.PointOnLine(p, l)
  {
    V.CrossWithZero(P.Minus(p, l.point));
    L.ZeroNearlyZero();
  }

  lemma TolerantLineOfNearTriangle(t: Triangle)
    requires t.a == Near1 && t.b == Near2 && t.c == Near1 && t.kind == LineKind
    ensures LineFromTriangle(t) == L.Line(V.Zero, Near1)
  {
    assert P.Equal(t.a, t.b);
    P.MinusSelfZero(Near1);
  }

  lemma ExactLineOfNearTriangle(t: Triangle)
    requires t.a == Near1 && t.b == Near2 && t.c == Near1 && t.kind == LineKind
    ensures L.LineFromTriangle(t) == L.Line(P.Minus(Near2, Near1), Near1)
  {
  }

  lemma FarAwayPoint()
    ensures Construct(FarAway, FarAway, FarAway, 1).a == FarAway
  {
  }

  /**
   * For that triangle the tolerant test takes a == b, so the direction is
   * c - a, the zero vector, and every point, here (0, 0, 100), is reported
   * on the line; the exact draft takes b - a and rejects the point.
   */
  lemma ZeroDirectionAsWritten()
    ensures var t := Construct(Near1, Near2, Near1, 0);
      WellFormed(t) && t.kind == LineKind &&
      LineFromTriangle(t).vector == V.Zero &&
      IntersectLineWithPoint(t, Construct(FarAway, FarAway, FarAway, 1)) &&
      !L.IntersectLineWithPoint(t, Construct(FarAway, FarAway, FarAway, 1))
  {
    NearTriangleShape();
    var t := Construct(Near1, Near2, Near1, 0);
    var far := Construct(FarAway, FarAway, FarAway, 1);
    FarAwayPoint();
    TolerantLineOfNearTriangle(t);
    ZeroDirectionAcceptsEverything(LineFromTriangle(t), far.a);
    ExactLineOfNearTriangle(t);
    ExactLineRejectsFarAway();
  }

  lemma ExactLineRejectsFarAway()
    ensures !L.PointOnLine(FarAway, L.Line(P.Minus(Near2, Near1), Near1))
  {
    assert P.Minus(Near2, Near1) == V.Vector(0.0000005, -0.0000005, 0.0);
    assert P.Minus(FarAway, Near1) == V.Vector(-1.0, -1.0000005, 100.0);
    assert V.Cross(V.Vector(-1.0, -1.0000005, 100.0), V.Vector(0.0000005, -0.0000005, 0.0)).x == 0.00005;
  }
}
