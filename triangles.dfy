/**
 * Triangles and their classification (include/triangles.hpp lines 9-68),
 * plus point_in_triangle of include/point.hpp, which works on a triangle.
 */
module Triangles {
  import opened Config
  import V = Vectors
  import P = Points

  /** TriangleType: what the three vertices actually span. */
  datatype TriangleType = NoneKind | PointKind | LineKind | TriangleKind

  /**
   * A triangle: its vertices after the constructor's reordering, its type and
   * the identifier the octree reports (the input position of the triangle).
   */
  datatype Triangle = Triangle(a: P.Point, b: P.Point, c: P.Point, kind: TriangleType, id: int)

  /**
   * validate: NONE when a vertex is invalid, POINT when all three vertices
   * coincide, LINE when two of them do, TRIANGLE otherwise. Vertices are
   * compared exactly, not within epsilon.
   */
  function Classify(a: P.Point, b: P.Point, c: P.Point): TriangleType
  {
    if !P.Valid(a) || !P.Valid(b) || !P.Valid(c) then NoneKind
    else if a == b && b == c then PointKind
    else if a == b || b == c || a == c then LineKind
    else TriangleKind
  }

  /** Each type in terms of the vertices, in both directions. */
  lemma ClassifyCharacterised(a: P.Point, b: P.Point, c: P.Point)
    ensures Classify(a, b, c) == NoneKind <==> !(P.Valid(a) && P.Valid(b) && P.Valid(c))
    ensures Classify(a, b, c) == PointKind <==> P.Valid(a) && a == b && b == c
    ensures Classify(a, b, c) == LineKind <==>
      P.Valid(a) && P.Valid(b) && P.Valid(c) && !(a == b && b == c) && (a == b || b == c || a == c)
    ensures Classify(a, b, c) == TriangleKind <==>
      P.Valid(a) && P.Valid(b) && P.Valid(c) && a != b && b != c && a != c
  {
  }

  /** The type does not depend on the order of the vertices. */
  lemma ClassifyPermutation(a: P.Point, b: P.Point, c: P.Point)
    ensures Classify(a, b, c) == Classify(b, a, c)
    ensures Classify(a, b, c) == Classify(a, c, b)
    ensures Classify(a, b, c) == Classify(c, b, a)
  {
  }

  /**
   * Three distinct points on one line are classified TRIANGLE: validate
   * compares vertices only, never tests collinearity.
   */
  lemma CollinearDistinctIsTriangle()
    ensures var a, b, c := P.Point(1.0, 1.0, 1.0), P.Point(2.0, 2.0, 2.0), P.Point(3.0, 3.0, 3.0);
      P.ThreePointsOnOneLine(a, b, c) && Classify(a, b, c) == TriangleKind
  {
    var a, b, c := P.Point(1.0, 1.0, 1.0), P.Point(2.0, 2.0, 2.0), P.Point(3.0, 3.0, 3.0);
    assert V.Cross(P.Minus(b, a), P.Minus(c, a)) == V.Zero;
    CmpReflexive(0.0);
  }

  /** A triangle as the constructor leaves it: its type is that of its vertices. */
  predicate WellFormed(t: Triangle)
  {
    t.kind == Classify(t.a, t.b, t.c)
  }

  /**
   * The comparison `p.norm() <= q.norm()` that decides each swap. A NaN
   * norm compares false, so an invalid vertex is never swapped on its account.
   */
  predicate NormLe(p: P.Point, q: P.Point)
  {
    P.Valid(p) && P.Valid(q) && P.Norm(p) <= P.Norm(q)
  }

  /** Vertices ordered by non-increasing norm. */
  predicate NormSorted(a: P.Point, b: P.Point, c: P.Point)
  {
    P.Valid(a) && P.Valid(b) && P.Valid(c) && P.Norm(a) >= P.Norm(b) >= P.Norm(c)
  }

  /** The vertex order the three conditional swaps produce, as a value. */
  function Reorder(p1: P.Point, p2: P.Point, p3: P.Point): (r: (P.Point, P.Point, P.Point))
  {
    var (a1, b1) := if NormLe(p1, p2) then (p2, p1) else (p1, p2);
    var (a2, c2) := if NormLe(a1, p3) then (p3, a1) else (a1, p3);
    var (b3, c3) := if NormLe(b1, c2) then (c2, b1) else (b1, c2);
    (a2, b3, c3)
  }

  /** The swaps only permute the vertices. */
  lemma ReorderPermutes(p1: P.Point, p2: P.Point, p3: P.Point)
    ensures var (a, b, c) := Reorder(p1, p2, p3); multiset{a, b, c} == multiset{p1, p2, p3}
  {
    var (a, b, c) := Reorder(p1, p2, p3);
    assert IsPermutation(a, b, c, p1, p2, p3);
    PermutationMultiset(a, b, c, p1, p2, p3);
  }

  /** (a, b, c) lists x, y and z in one of the six possible orders. */
  predicate IsPermutation(a: P.Point, b: P.Point, c: P.Point, x: P.Point, y: P.Point, z: P.Point)
  {
    (a, b, c) == (x, y, z) || (a, b, c) == (x, z, y) || (a, b, c) == (y, x, z) ||
    (a, b, c) == (y, z, x) || (a, b, c) == (z, x, y) || (a, b, c) == (z, y, x)
  }

  lemma PermutationMultiset(a: P.Point, b: P.Point, c: P.Point, x: P.Point, y: P.Point, z: P.Point)
    requires IsPermutation(a, b, c, x, y, z)
    ensures multiset{a, b, c} == multiset{x, y, z}
  {
  }

  /** On valid vertices the swaps sort by non-increasing norm. */
  lemma ReorderSorts(p1: P.Point, p2: P.Point, p3: P.Point)
    requires P.Valid(p1) && P.Valid(p2) && P.Valid(p3)
    ensures var (a, b, c) := Reorder(p1, p2, p3); NormSorted(a, b, c)
  {
    var n1, n2, n3 := P.Norm(p1), P.Norm(p2), P.Norm(p3);
    var (a1, b1) := if NormLe(p1, p2) then (p2, p1) else (p1, p2);
    assert P.Norm(a1) >= P.Norm(b1);
    var (a2, c2) := if NormLe(a1, p3) then (p3, a1) else (a1, p3);
    assert P.Norm(a2) >= P.Norm(c2) && P.Norm(a2) >= P.Norm(b1);
    var (b3, c3) := if NormLe(b1, c2) then (c2, b1) else (b1, c2);
    assert P.Norm(b3) >= P.Norm(c3);
  }

  /** The triangle the constructor produces, as a value. */
  function Construct(p1: P.Point, p2: P.Point, p3: P.Point, id: int): Triangle
  {
    var (a, b, c) := Reorder(p1, p2, p3);
    Triangle(a, b, c, Classify(a, b, c), id)
  }

  /**
   * The constructor: the three conditional swaps by norm, then validate.
   * (The source takes nine coordinates; a NaN coordinate makes the point invalid.)
   */
  method NewTriangle(p1: P.Point, p2: P.Point, p3: P.Point, id: int) returns (t: Triangle)
    ensures t == Construct(p1, p2, p3, id)
    ensures multiset{t.a, t.b, t.c} == multiset{p1, p2, p3}
    ensures P.Valid(p1) && P.Valid(p2) && P.Valid(p3) ==> NormSorted(t.a, t.b, t.c)
    ensures t.kind == Classify(p1, p2, p3) && WellFormed(t)
    ensures t.id == id
  {
    var a, b, c := p1, p2, p3;
    if NormLe(a, b) {
      a, b := b, a;
    }
    if NormLe(a, c) {
      a, c := c, a;
    }
    if NormLe(b, c) {
      b, c := c, b;
    }
    ReorderPermutes(p1, p2, p3);
    if P.Valid(p1) && P.Valid(p2) && P.Valid(p3) {
      ReorderSorts(p1, p2, p3);
    }
    ClassifyPermutation(p1, p2, p3);
    ClassifyPermutation(p2, p1, p3);
    ClassifyPermutation(p1, p3, p2);
    ClassifyPermutation(p3, p1, p2);
    ClassifyPermutation(p2, p3, p1);
    t := Triangle(a, b, c, Classify(a, b, c), id);
  }

  /** The three cross products point_in_triangle normalises. */
  function CrossA(t: Triangle, p: P.Point): V.Vector
  {
    V.Cross(P.Minus(t.a, t.b), P.Minus(p, t.b))
  }

  function CrossB(t: Triangle, p: P.Point): V.Vector
  {
    V.Cross(P.Minus(t.c, t.a), P.Minus(p, t.a))
  }

  function CrossC(t: Triangle, p: P.Point): V.Vector
  {
    V.Cross(P.Minus(t.b, t.c), P.Minus(p, t.c))
  }

  /**
   * point_in_triangle: normalise the three edge-to-point cross products. If
   * two of them are (nearly) zero, p is inside; if one is, p is inside when
   * some two of them agree; otherwise p is inside when all three agree.
   * lenA, lenB and lenC are the lengths std::sqrt gives for the cross products.
   */
  function PointInTriangle(t: Triangle, p: P.Point, lenA: real, lenB: real, lenC: real): bool
    requires V.IsLength(CrossA(t, p), lenA)
    requires V.IsLength(CrossB(t, p), lenB)
    requires V.IsLength(CrossC(t, p), lenC)
  {
    var pa := V.Normalize(CrossA(t, p), lenA);
    var pb := V.Normalize(CrossB(t, p), lenB);
    var pc := V.Normalize(CrossC(t, p), lenC);
    var za, zb, zc := V.Equal(pa, V.Zero), V.Equal(pb, V.Zero), V.Equal(pc, V.Zero);
    if (za && zb) || (za && zc) || (zb && zc) then true
    else if za || zb || zc then V.Equal(pb, pc) || V.Equal(pa, pc) || V.Equal(pa, pb)
    else V.Equal(pa, pb) && V.Equal(pb, pc)
  }

  /** Every vertex of a triangle with valid vertices is reported inside it. */
  lemma VertexInTriangle(t: Triangle, p: P.Point, lenA: real, lenB: real, lenC: real)
    requires P.Valid(t.a) && P.Valid(t.b) && P.Valid(t.c)
    requires p == t.a || p == t.b || p == t.c
    requires V.IsLength(CrossA(t, p), lenA)
    requires V.IsLength(CrossB(t, p), lenB)
    requires V.IsLength(CrossC(t, p), lenC)
    ensures PointInTriangle(t, p, lenA, lenB, lenC)
  {
    V.EqualReflexive(V.Zero);
    P.MinusSelfZero(p);
    if p == t.a {
      V.CrossSelfZero(P.Minus(t.a, t.b));
      V.CrossWithZero(P.Minus(t.c, t.a));
      V.NormalizeZero(lenA);
      V.NormalizeZero(lenB);
    } else if p == t.b {
      V.CrossWithZero(P.Minus(t.a, t.b));
      V.CrossSelfZero(P.Minus(t.b, t.c));
      V.NormalizeZero(lenA);
      V.NormalizeZero(lenC);
    } else {
      V.CrossSelfZero(P.Minus(t.c, t.a));
      V.CrossWithZero(P.Minus(t.b, t.c));
      V.NormalizeZero(lenB);
      V.NormalizeZero(lenC);
    }
  }

  /** An invalid point is never inside: every comparison with NaN fails. */
  lemma InvalidPointNotInTriangle(t: Triangle, p: P.Point, lenA: real, lenB: real, lenC: real)
    requires !P.Valid(p)
    requires V.IsLength(CrossA(t, p), lenA)
    requires V.IsLength(CrossB(t, p), lenB)
    requires V.IsLength(CrossC(t, p), lenC)
    ensures !PointInTriangle(t, p, lenA, lenB, lenC)
  {
  }
}
