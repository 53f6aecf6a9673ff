/** Lines given by a direction and an anchor point (include/line.hpp). */
module Lines {
  import opened Config
  import V = Vectors
  import P = Points
  import Pl = Planes
  import opened Triangles

  /** The line through `point` with direction `vector`. */
  datatype Line = Line(vector: V.Vector, point: P.Point)

  /** `Line()`: both members default-constructed, so both NaN. */
  const DefaultLine: Line := Line(V.NaNVector, P.NaNPoint)

  /** valid: both the direction and the anchor are valid. */
  predicate Valid(l: Line)
  {
    V.Valid(l.vector) && P.Valid(l.point)
  }

  lemma DefaultLineInvalid()
    ensures !Valid(DefaultLine)
  {
  }

  /** The recurring test: a valid vector each of whose components is within epsilon of 0. */
  predicate NearlyZero(v: V.Vector)
  {
    V.Valid(v) && Cmp(v.x, 0.0) && Cmp(v.y, 0.0) && Cmp(v.z, 0.0)
  }

  lemma ZeroNearlyZero()
    ensures NearlyZero(V.Zero)
  {
    CmpReflexive(0.0);
  }

  /**
   * operator==: the difference of the anchors is (nearly) parallel to the
   * other line's direction. This line's own direction is never consulted.
   */
  predicate Equal(l1: Line, l2: Line)
  {
    NearlyZero(V.Cross(P.Minus(l1.point, l2.point), l2.vector))
  }

  lemma EqualReflexive(l: Line)
    requires Valid(l)
    ensures Equal(l, l)
  {
    P.MinusSelfZero(l.point);
    V.CrossWithZero(l.vector);
    ZeroNearlyZero();
  }

  /** A line equals nothing when its anchor or the other line is invalid. */
  lemma EqualInvalid(l1: Line, l2: Line)
    requires !P.Valid(l1.point) || !Valid(l2)
    ensures !Equal(l1, l2)
  {
  }

  /** The direction of the left operand does not take part in the comparison. */
  lemma EqualIgnoresOwnDirection(l1: Line, l2: Line, v: V.Vector)
    ensures Equal(l1, l2) == Equal(Line(v, l1.point), l2)
  {
  }

  /** Hence equality is not symmetric: a line along y and one along x through (1, 0, 0). */
  lemma EqualNotSymmetric()
    ensures Equal(Line(V.Vector(0.0, 1.0, 0.0), P.Origin), Line(V.Vector(1.0, 0.0, 0.0), P.Point(1.0, 0.0, 0.0)))
    ensures !Equal(Line(V.Vector(1.0, 0.0, 0.0), P.Point(1.0, 0.0, 0.0)), Line(V.Vector(0.0, 1.0, 0.0), P.Origin))
  {
    EqualAlongX();
    NotEqualAlongY();
  }

  lemma EqualAlongX()
    ensures Equal(Line(V.Vector(0.0, 1.0, 0.0), P.Origin), Line(V.Vector(1.0, 0.0, 0.0), P.Point(1.0, 0.0, 0.0)))
  {
    OffsetAlongX();
    CrossAlongX();
    ZeroNearlyZero();
  }

  lemma OffsetAlongX()
    ensures P.Minus(P.Origin, P.Point(1.0, 0.0, 0.0)) == V.Vector(-1.0, 0.0, 0.0)
  {
  }

  lemma CrossAlongX()
    ensures V.Cross(V.Vector(-1.0, 0.0, 0.0), V.Vector(1.0, 0.0, 0.0)) == V.Zero
  {
  }

  lemma NotEqualAlongY()
    ensures !Equal(Line(V.Vector(1.0, 0.0, 0.0), P.Point(1.0, 0.0, 0.0)), Line(V.Vector(0.0, 1.0, 0.0), P.Origin))
  {
    OffsetFromOrigin();
    CrossXY();
  }

  lemma OffsetFromOrigin()
    ensures P.Minus(P.Point(1.0, 0.0, 0.0), P.Origin) == V.Vector(1.0, 0.0, 0.0)
  {
  }

  lemma CrossXY()
    ensures V.Cross(V.Vector(1.0, 0.0, 0.0), V.Vector(0.0, 1.0, 0.0)) == V.Vector(0.0, 0.0, 1.0)
  {
  }

  /**
   * is_point_on_line as written: per axis, direction times the point's
   * coordinate plus the anchor's coordinate is within epsilon of 0.
   */
  predicate IsPointOnLine(p: P.Point, l: Line)
  {
    Valid(l) && P.Valid(p) &&
    Cmp(l.vector.x * p.x + l.point.x, 0.0) &&
    Cmp(l.vector.y * p.y + l.point.y, 0.0) &&
    Cmp(l.vector.z * p.z + l.point.z, 0.0)
  }

  /** As written, the anchor of the x axis shifted to (1, 0, 0) is not on its own line. */
  lemma AnchorNotOnLineAsWritten()
    ensures var l := Line(V.Vector(1.0, 0.0, 0.0), P.Point(1.0, 0.0, 0.0));
      Valid(l) && !IsPointOnLine(l.point, l)
  {
  }

  /** Line membership as intended: p minus the anchor is parallel to the direction. */
  predicate PointOnLine(p: P.Point, l: Line)
  {
    NearlyZero(V.Cross(P.Minus(p, l.point), l.vector))
  }

  /** Every point anchor + k * direction of a valid line is on it. */
  lemma PointsAlongLineAreOnIt(l: Line, k: real)
    requires Valid(l)
    ensures PointOnLine(P.Translate(l.point, V.Scale(l.vector, k)), l)
  {
    var u := l.vector;
    assert P.Minus(P.Translate(l.point, V.Scale(u, k)), l.point) == V.Scale(u, k);
    assert V.Cross(V.Scale(u, k), u) == V.Zero;
    ZeroNearlyZero();
  }

  // intersect_line_with_line. Line 1 is p1 + s d1 and line 2 is p2 - t d2;
  // A..F are the dot products of d1, d2 and w = p1 - p2.

  function CoA(l1: Line, l2: Line): real requires Valid(l1) && Valid(l2) { V.Dot(l1.vector, l1.vector) }
  function CoB(l1: Line, l2: Line): real requires Valid(l1) && Valid(l2) { V.Dot(l1.vector, l2.vector) }
  function CoC(l1: Line, l2: Line): real requires Valid(l1) && Valid(l2) { V.Dot(l2.vector, l2.vector) }
  function CoD(l1: Line, l2: Line): real requires Valid(l1) && Valid(l2) { V.Dot(l1.vector, P.Minus(l1.point, l2.point)) }
  function CoE(l1: Line, l2: Line): real requires Valid(l1) && Valid(l2) { V.Dot(l2.vector, P.Minus(l1.point, l2.point)) }
  function CoF(l1: Line, l2: Line): real requires Valid(l1) && Valid(l2) { V.Dot(P.Minus(l1.point, l2.point), P.Minus(l1.point, l2.point)) }

  /** denom = A C - B^2; it is within epsilon of 0 for (nearly) parallel lines. */
  function Denominator(l1: Line, l2: Line): real
    requires Valid(l1) && Valid(l2)
  {
    CoA(l1, l2) * CoC(l1, l2) - CoB(l1, l2) * CoB(l1, l2)
  }

  /** The parameters of the closest pair of points. */
  function ParamS(l1: Line, l2: Line): real
    requires Valid(l1) && Valid(l2) && Denominator(l1, l2) != 0.0
  {
    (CoB(l1, l2) * CoE(l1, l2) - CoC(l1, l2) * CoD(l1, l2)) / Denominator(l1, l2)
  }

  function ParamT(l1: Line, l2: Line): real
    requires Valid(l1) && Valid(l2) && Denominator(l1, l2) != 0.0
  {
    (CoB(l1, l2) * CoD(l1, l2) - CoA(l1, l2) * CoE(l1, l2)) / Denominator(l1, l2)
  }

  /** dist = s (A s + B t + 2 D) + t (B s + C t + 2 E) + F. */
  function Distance(l1: Line, l2: Line, s: real, t: real): real
    requires Valid(l1) && Valid(l2)
  {
    var a, b, c, d, e, f := CoA(l1, l2), CoB(l1, l2), CoC(l1, l2), CoD(l1, l2), CoE(l1, l2), CoF(l1, l2);
    s * (a * s + b * t + 2.0 * d) + t * (b * s + c * t + 2.0 * e) + f
  }

  /** The point of line 1 at parameter s and the point of line 2 at parameter t. */
  function OnFirst(l1: Line, s: real): P.Point
  {
    P.Translate(l1.point, V.Scale(l1.vector, s))
  }

  function OnSecond(l2: Line, t: real): P.Point
  {
    P.Translate(l2.point, V.Scale(l2.vector, -t))
  }

  /**
   * intersect_line_with_line: NaN when either line is invalid, when the lines
   * are (nearly) parallel, or when the closest points are not within epsilon
   * in squared distance (skew lines); otherwise the closest point of line 2.
   */
  function IntersectLineWithLine(l1: Line, l2: Line): (r: P.Point)
    ensures P.Valid(r) ==> Valid(l1) && Valid(l2) && !Cmp(Denominator(l1, l2), 0.0)
    ensures P.Valid(r) ==>
      var s, t := ParamS(l1, l2), ParamT(l1, l2);
      r == OnSecond(l2, t) && Cmp(Distance(l1, l2, s, t), 0.0)
    ensures (Valid(l1) && Valid(l2) && !Cmp(Denominator(l1, l2), 0.0) &&
             Cmp(Distance(l1, l2, ParamS(l1, l2), ParamT(l1, l2)), 0.0)) ==> P.Valid(r)
  {
    if !Valid(l1) || !Valid(l2) then P.NaNPoint
    else
      var denom := Denominator(l1, l2);
      if Cmp(denom, 0.0) then P.NaNPoint
      else
        var s, t := ParamS(l1, l2), ParamT(l1, l2);
        if !Cmp(Distance(l1, l2, s, t), 0.0) then P.NaNPoint
        else OnSecond(l2, t)
  }

  /** (w + s a + t b)^2 expanded, for one coordinate. */
  lemma SquareOfSum(w: real, a: real, b: real, s: real, t: real)
    ensures (w + s * a + t * b) * (w + s * a + t * b) ==
      s * s * (a * a) + 2.0 * s * t * (a * b) + t * t * (b * b) +
      2.0 * s * (a * w) + 2.0 * t * (b * w) + w * w
  {
  }

  /** dist is the squared distance between the point of line 1 at s and the point of line 2 at t. */
  lemma DistanceIsSquaredGap(l1: Line, l2: Line, s: real, t: real)
    requires Valid(l1) && Valid(l2)
    ensures var g := P.Minus(OnFirst(l1, s), OnSecond(l2, t));
      V.Valid(g) && Distance(l1, l2, s, t) == V.Dot(g, g)
  {
    var d1, d2, w := l1.vector, l2.vector, P.Minus(l1.point, l2.point);
    var g := P.Minus(OnFirst(l1, s), OnSecond(l2, t));
    assert g == V.Vector(w.x + s * d1.x + t * d2.x, w.y + s * d1.y + t * d2.y, w.z + s * d1.z + t * d2.z);
    SquareOfSum(w.x, d1.x, d2.x, s, t);
    SquareOfSum(w.y, d1.y, d2.y, s, t);
    SquareOfSum(w.z, d1.z, d2.z, s, t);
    var a, b, c, d, e, f := CoA(l1, l2), CoB(l1, l2), CoC(l1, l2), CoD(l1, l2), CoE(l1, l2), CoF(l1, l2);
    assert V.Dot(g, g) == s * s * a + 2.0 * s * t * b + t * t * c + 2.0 * s * d + 2.0 * t * e + f;
    assert Distance(l1, l2, s, t) == s * s * a + 2.0 * s * t * b + t * t * c + 2.0 * s * d + 2.0 * t * e + f;
  }

  /**
   * s and t are where both partial derivatives of the squared distance vanish:
   * the pair of closest points.
   */
  lemma ParamsAreStationary(l1: Line, l2: Line)
    requires Valid(l1) && Valid(l2) && Denominator(l1, l2) != 0.0
    ensures var s, t := ParamS(l1, l2), ParamT(l1, l2);
      CoA(l1, l2) * s + CoB(l1, l2) * t + CoD(l1, l2) == 0.0 &&
      CoB(l1, l2) * s + CoC(l1, l2) * t + CoE(l1, l2) == 0.0
  {
    ParamsScaled(l1, l2);
    Stationary(CoA(l1, l2), CoB(l1, l2), CoC(l1, l2), CoD(l1, l2), CoE(l1, l2), Denominator(l1, l2), ParamS(l1, l2), ParamT(l1, l2));
  }

  /** s and t multiplied back by the determinant give Cramer's numerators for the system A s + B t + D = 0, B s + C t + E = 0. */
  predicate CramerScaled(a: real, b: real, c: real, d: real, e: real, den: real, s: real, t: real)
  {
    den == a * c - b * b && den != 0.0 && s * den == b * e - c * d && t * den == b * d - a * e
  }

  /** s and t solve A s + B t + D = 0 and B s + C t + E = 0. */
  predicate SolvesSystem(a: real, b: real, c: real, d: real, e: real, s: real, t: real)
  {
    a * s + b * t + d == 0.0 && b * s + c * t + e == 0.0
  }

  lemma ParamsScaled(l1: Line, l2: Line)
    requires Valid(l1) && Valid(l2) && Denominator(l1, l2) != 0.0
    ensures CramerScaled(CoA(l1, l2), CoB(l1, l2), CoC(l1, l2), CoD(l1, l2), CoE(l1, l2), Denominator(l1, l2), ParamS(l1, l2), ParamT(l1, l2))
  {
    ParamSScaled(l1, l2);
    ParamTScaled(l1, l2);
  }

  lemma ParamSScaled(l1: Line, l2: Line)
    requires Valid(l1) && Valid(l2) && Denominator(l1, l2) != 0.0
    ensures ParamS(l1, l2) * Denominator(l1, l2) == CoB(l1, l2) * CoE(l1, l2) - CoC(l1, l2) * CoD(l1, l2)
  {
    DivisionUndone(CoB(l1, l2) * CoE(l1, l2) - CoC(l1, l2) * CoD(l1, l2), Denominator(l1, l2));
  }

  lemma ParamTScaled(l1: Line, l2: Line)
    requires Valid(l1) && Valid(l2) && Denominator(l1, l2) != 0.0
    ensures ParamT(l1, l2) * Denominator(l1, l2) == CoB(l1, l2) * CoD(l1, l2) - CoA(l1, l2) * CoE(l1, l2)
  {
    DivisionUndone(CoB(l1, l2) * CoD(l1, l2) - CoA(l1, l2) * CoE(l1, l2), Denominator(l1, l2));
  }

  lemma DivisionUndone(x: real, k: real)
    requires k != 0.0
    ensures (x / k) * k == x
  {
  }

  /** The solution of the 2x2 system by Cramer's rule satisfies both equations. */
  lemma Stationary(a: real, b: real, c: real, d: real, e: real, den: real, s: real, t: real)
    requires CramerScaled(a, b, c, d, e, den, s, t)
    ensures SolvesSystem(a, b, c, d, e, s, t)
  {
    assert (a * s + b * t + d) * den == a * (s * den) + b * (t * den) + d * den;
    assert (b * s + c * t + e) * den == b * (s * den) + c * (t * den) + e * den;
    Pl.ZeroProduct(a * s + b * t + d, den);
    Pl.ZeroProduct(b * s + c * t + e, den);
  }

  /** Lagrange's identity: denom is the squared length of d1 x d2, so it vanishes exactly for parallel directions. */
  lemma DenominatorIsCrossSquared(l1: Line, l2: Line)
    requires Valid(l1) && Valid(l2)
    ensures var cr := V.Cross(l1.vector, l2.vector); Denominator(l1, l2) == V.Dot(cr, cr)
  {
    var u, v := l1.vector, l2.vector;
    Lagrange(u.x, u.y, u.z, v.x, v.y, v.z);
  }

  lemma Lagrange(a1: real, a2: real, a3: real, b1: real, b2: real, b3: real)
    ensures (a1 * a1 + a2 * a2 + a3 * a3) * (b1 * b1 + b2 * b2 + b3 * b3) -
            (a1 * b1 + a2 * b2 + a3 * b3) * (a1 * b1 + a2 * b2 + a3 * b3) ==
            (a2 * b3 - a3 * b2) * (a2 * b3 - a3 * b2) +
            (a3 * b1 - a1 * b3) * (a3 * b1 - a1 * b3) +
            (a1 * b2 - a2 * b1) * (a1 * b2 - a2 * b1)
  {
  }

  /**
   * A reported intersection lies exactly on line 2 and within squared
   * distance epsilon of the closest point of line 1.
   */
  lemma IntersectionNearBothLines(l1: Line, l2: Line)
    requires P.Valid(IntersectLineWithLine(l1, l2))
    ensures var r := IntersectLineWithLine(l1, l2);
      var g := P.Minus(OnFirst(l1, ParamS(l1, l2)), r);
      PointOnLine(r, l2) && V.Valid(g) && V.Dot(g, g) <= Epsilon
  {
    var s, t := ParamS(l1, l2), ParamT(l1, l2);
    DistanceIsSquaredGap(l1, l2, s, t);
    PointsAlongLineAreOnIt(l2, -t);
  }

  /**
   * get_line_from_triangle: the default line unless the triangle is a LINE;
   * otherwise anchored at a, with direction c - a when a == b, b - a when
   * a == c, and c - a otherwise (exact comparisons).
   */
  function LineFromTriangle(t: Triangle): Line
  {
    if t.kind != LineKind then DefaultLine
    else if t.a == t.b then Line(P.Minus(t.c, t.a), t.a)
    else if t.a == t.c then Line(P.Minus(t.b, t.a), t.a)
    else Line(P.Minus(t.c, t.a), t.a)
  }

  /**
   * For a well-formed LINE triangle the line is valid, anchored at a, has a
   * non-zero direction, and passes exactly through all three vertices.
   */
  lemma LineFromTriangleThroughVertices(t: Triangle)
    requires WellFormed(t) && t.kind == LineKind
    ensures var l := LineFromTriangle(t);
      Valid(l) && l.point == t.a && l.vector != V.Zero &&
      V.Cross(P.Minus(t.a, l.point), l.vector) == V.Zero &&
      V.Cross(P.Minus(t.b, l.point), l.vector) == V.Zero &&
      V.Cross(P.Minus(t.c, l.point), l.vector) == V.Zero
  {
    var l := LineFromTriangle(t);
    P.MinusSelfZero(t.a);
    V.CrossWithZero(l.vector);
    V.CrossSelfZero(l.vector);
    assert P.Translate(l.point, l.vector) != l.point;
    assert P.Translate(l.point, V.Zero) == l.point;
  }

  lemma LineFromTriangleNotLine(t: Triangle)
    requires t.kind != LineKind
    ensures LineFromTriangle(t) == DefaultLine
  {
  }

  /**
   * intersect_line_with_point: the first vertex of t2 is on the line of t1,
   * by the tolerant cross-product test.
   */
  predicate IntersectLineWithPoint(t1: Triangle, t2: Triangle)
  {
    PointOnLine(t2.a, LineFromTriangle(t1))
  }

  /** Only a LINE t1 can meet a point; its own vertices always do. */
  lemma IntersectLineWithPointCases(t1: Triangle, t2: Triangle)
    ensures t1.kind != LineKind ==> !IntersectLineWithPoint(t1, t2)
    ensures WellFormed(t1) && t1.kind == LineKind && (t2.a == t1.a || t2.a == t1.b || t2.a == t1.c) ==>
      IntersectLineWithPoint(t1, t2)
  {
    if WellFormed(t1) && t1.kind == LineKind {
      LineFromTriangleThroughVertices(t1);
      ZeroNearlyZero();
    }
  }
}
