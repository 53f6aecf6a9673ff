/** Points with a NaN sentinel (include/point.hpp, plus vector_from_point of include/vector.hpp). */
module Points {
  import opened Config
  import opened Vectors

  /**
   * A location. `NaNPoint` is the value whose components are all NaN: what a
   * default-constructed Point holds, and the "no such point" answer.
   */
  datatype Point = Point(x: real, y: real, z: real) | NaNPoint

  const Origin: Point := Point(0.0, 0.0, 0.0)

  /** `Point{}`: every component is NaN. */
  const DefaultPoint: Point := NaNPoint

  /** valid: no component is NaN. */
  predicate Valid(p: Point)
  {
    p.Point?
  }

  lemma DefaultPointInvalid()
    ensures !Valid(DefaultPoint)
  {
  }

  /** norm: the squared distance from the origin (no square root is taken). */
  function Norm(p: Point): (r: real)
    requires Valid(p)
    ensures r >= 0.0
  {
    SquareNonNegative(p.x);
    SquareNonNegative(p.y);
    SquareNonNegative(p.z);
    p.x * p.x + p.y * p.y + p.z * p.z
  }

  lemma SquareNonNegative(a: real)
    ensures a * a >= 0.0
  {
    if a < 0.0 {
      assert (-a) * (-a) >= 0.0 * (-a);
    } else {
      assert a * a >= 0.0 * a;
    }
  }

  /** The point reached from p by the displacement v. */
  function Translate(p: Point, v: Vector): Point
  {
    if Valid(p) && Vectors.Valid(v) then Point(p.x + v.x, p.y + v.y, p.z + v.z) else NaNPoint
  }

  /** operator-: the displacement from q to p; NaN when either is. */
  function Minus(p: Point, q: Point): (r: Vector)
    ensures Vectors.Valid(r) <==> Valid(p) && Valid(q)
    ensures Vectors.Valid(r) ==> Translate(q, r) == p
  {
    if Valid(p) && Valid(q) then Vector(p.x - q.x, p.y - q.y, p.z - q.z) else NaNVector
  }

  lemma MinusSelfZero(p: Point)
    requires Valid(p)
    ensures Minus(p, p) == Zero
  {
  }

  /** equal: both points valid and every component within the tolerance. */
  predicate Equal(p: Point, q: Point): (r: bool)
    ensures r ==> Valid(p) && Valid(q)
    ensures r ==> Abs(p.x - q.x) <= Epsilon && Abs(p.y - q.y) <= Epsilon && Abs(p.z - q.z) <= Epsilon
  {
    Valid(p) && Valid(q) && Cmp(p.x, q.x) && Cmp(p.y, q.y) && Cmp(p.z, q.z)
  }

  lemma EqualInvalid(p: Point, q: Point)
    requires !Valid(p) || !Valid(q)
    ensures !Equal(p, q)
  {
  }

  lemma EqualReflexive(p: Point)
    requires Valid(p)
    ensures Equal(p, p)
  {
  }

  lemma EqualSymmetric(p: Point, q: Point)
    ensures Equal(p, q) <==> Equal(q, p)
  {
  }

  /** vector_from_point: the position vector of p. */
  function VectorFromPoint(p: Point): (r: Vector)
    ensures Vectors.Valid(r) <==> Valid(p)
    ensures Valid(p) ==> Translate(Origin, r) == p
  {
    if Valid(p) then Vector(p.x, p.y, p.z) else NaNVector
  }

  /** point_from_vector: the point whose position vector is v. */
  function PointFromVector(v: Vector): (r: Point)
    ensures Valid(r) <==> Vectors.Valid(v)
    ensures Vectors.Valid(v) ==> Minus(r, Origin) == v
  {
    if Vectors.Valid(v) then Point(v.x, v.y, v.z) else NaNPoint
  }

  lemma PointVectorRoundTrip(p: Point, v: Vector)
    ensures PointFromVector(VectorFromPoint(p)) == p
    ensures VectorFromPoint(PointFromVector(v)) == v
  {
  }

  /** three_points_on_one_line: the two edge vectors from a have a cross product within the tolerance of 0. */
  predicate ThreePointsOnOneLine(a: Point, b: Point, c: Point)
  {
    var cr := Cross(Minus(b, a), Minus(c, a));
    Vectors.Valid(cr) && Cmp(cr.x, 0.0) && Cmp(cr.y, 0.0) && Cmp(cr.z, 0.0)
  }

  /** Any two coinciding points lie on one line with the third. */
  lemma CoincidentPointsOnOneLine(a: Point, b: Point, c: Point)
    requires Valid(a) && Valid(b) && Valid(c)
    requires a == b || b == c || a == c
    ensures ThreePointsOnOneLine(a, b, c)
  {
    if a == b {
      CrossWithZero(Minus(c, a));
    } else if a == c {
      CrossWithZero(Minus(b, a));
    } else {
      CrossSelfZero(Minus(b, a));
    }
  }

  /** An invalid point never lies on a line with others. */
  lemma InvalidNotOnOneLine(a: Point, b: Point, c: Point)
    requires !Valid(a) || !Valid(b) || !Valid(c)
    ensures !ThreePointsOnOneLine(a, b, c)
  {
  }
}
