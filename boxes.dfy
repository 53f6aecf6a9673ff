/** Axis-aligned bounding boxes and their split into octants (include/octotree.hpp lines 10-82). */
module Boxes {
  import opened Config
  import V = Vectors
  import P = Points
  import opened Triangles

  /** A box from its lowest corner to its highest corner. */
  datatype Box = Box(min: V.Vector, max: V.Vector)

  /** `BoundingBox()`: both corners at the origin. */
  const DefaultBox: Box := Box(V.Zero, V.Zero)

  /** No corner is NaN. */
  predicate Valid(b: Box)
  {
    V.Valid(b.min) && V.Valid(b.max)
  }

  /** contains(p): min <= p <= max in every coordinate, bounds included; any NaN makes it false. */
  predicate ContainsPoint(b: Box, p: P.Point)
  {
    Valid(b) && P.Valid(p) &&
    p.x >= b.min.x && p.y >= b.min.y && p.z >= b.min.z &&
    p.x <= b.max.x && p.y <= b.max.y && p.z <= b.max.z
  }

  /** contains(t): the box holds all three vertices. */
  predicate ContainsTriangle(b: Box, t: Triangle)
  {
    ContainsPoint(b, t.a) && ContainsPoint(b, t.b) && ContainsPoint(b, t.c)
  }

  /** The default box holds the origin only. */
  lemma DefaultBoxHoldsOnlyOrigin(p: P.Point)
    ensures ContainsPoint(DefaultBox, p) <==> p == P.Origin
  {
  }

  /** The bounds are inclusive: both corners of a valid box with min <= max are inside it. */
  lemma CornersInside(b: Box)
    requires Valid(b) && b.min.x <= b.max.x && b.min.y <= b.max.y && b.min.z <= b.max.z
    ensures ContainsPoint(b, P.Point(b.min.x, b.min.y, b.min.z))
    ensures ContainsPoint(b, P.Point(b.max.x, b.max.y, b.max.z))
  {
  }

  /** The minimum size below which a region is not split. */
  const MinSize: real := 1.0

  /** Every extent of the region (max - min) is at most MinSize; false when a corner is NaN. */
  predicate Small(b: Box)
  {
    Valid(b) && b.max.x - b.min.x <= MinSize && b.max.y - b.min.y <= MinSize && b.max.z - b.min.z <= MinSize
  }

  /** The largest extent of a valid box. */
  function Extent(b: Box): real
    requires Valid(b)
  {
    Max(Max(b.max.x - b.min.x, b.max.y - b.min.y), b.max.z - b.min.z)
  }

  /** A measure of how often a region can still be halved: the integer part of its largest extent. */
  function Measure(b: Box): int
  {
    if Valid(b) then Extent(b).Floor else 0
  }

  /** center = min + (max - min) / 2. */
  function Center(b: Box): V.Vector
    requires Valid(b)
  {
    V.Vector(b.min.x + (b.max.x - b.min.x) / 2.0,
             b.min.y + (b.max.y - b.min.y) / 2.0,
             b.min.z + (b.max.z - b.min.z) / 2.0)
  }

  /**
   * The eight octants in the order BuildTree numbers them: each takes the
   * lower or the upper half of every axis. NaN corners stay NaN.
   */
  function Octant(b: Box, i: int): Box
    requires 0 <= i < 8
  {
    if !Valid(b) then Box(V.NaNVector, V.NaNVector)
    else
      var lo, hi, c := b.min, b.max, Center(b);
      match i
      case 0 => Box(lo, c)
      case 1 => Box(V.Vector(c.x, lo.y, lo.z), V.Vector(hi.x, c.y, c.z))
      case 2 => Box(V.Vector(c.x, lo.y, c.z), V.Vector(hi.x, c.y, hi.z))
      case 3 => Box(V.Vector(lo.x, lo.y, c.z), V.Vector(c.x, c.y, hi.z))
      case 4 => Box(V.Vector(lo.x, c.y, lo.z), V.Vector(c.x, hi.y, c.z))
      case 5 => Box(V.Vector(c.x, c.y, lo.z), V.Vector(hi.x, hi.y, c.z))
      case 6 => Box(c, hi)
      case _ => Box(V.Vector(lo.x, c.y, c.z), V.Vector(c.x, hi.y, hi.z))
  }

  /** An octant lies inside its region: whatever it contains, the region contains. */
  lemma OctantInside(b: Box, i: int, p: P.Point)
    requires 0 <= i < 8 && ContainsPoint(Octant(b, i), p)
    ensures ContainsPoint(b, p)
  {
  }

  lemma OctantInsideTriangle(b: Box, i: int, t: Triangle)
    requires 0 <= i < 8 && ContainsTriangle(Octant(b, i), t)
    ensures ContainsTriangle(b, t)
  {
    OctantInside(b, i, t.a);
    OctantInside(b, i, t.b);
    OctantInside(b, i, t.c);
  }

  /** The octant a point of the region falls into, by comparing it with the center. */
  function CoveringOctant(b: Box, p: P.Point): (i: int)
    requires ContainsPoint(b, p)
    ensures 0 <= i < 8 && ContainsPoint(Octant(b, i), p)
  {
    var c := Center(b);
    var upX, upY, upZ := p.x >= c.x, p.y >= c.y, p.z >= c.z;
    if !upX && !upY && !upZ then 0
    else if upX && !upY && !upZ then 1
    else if upX && !upY && upZ then 2
    else if !upX && !upY && upZ then 3
    else if !upX && upY && !upZ then 4
    else if upX && upY && !upZ then 5
    else if upX && upY && upZ then 6
    else 7
  }

  /** Together the octants cover the region: every point inside is inside one of them. */
  lemma OctantsCover(b: Box, p: P.Point)
    requires ContainsPoint(b, p)
    ensures exists i :: 0 <= i < 8 && ContainsPoint(Octant(b, i), p)
  {
    var i := CoveringOctant(b, p);
  }

  /** Every octant has half the extent of its region along every axis. */
  lemma OctantHalves(b: Box, i: int)
    requires 0 <= i < 8 && Valid(b)
    ensures var o := Octant(b, i);
      Valid(o) &&
      o.max.x - o.min.x == (b.max.x - b.min.x) / 2.0 &&
      o.max.y - o.min.y == (b.max.y - b.min.y) / 2.0 &&
      o.max.z - o.min.z == (b.max.z - b.min.z) / 2.0
  {
  }

  /** A region that is split has a positive measure, and each octant's measure is smaller. */
  lemma OctantMeasureDecreases(b: Box, i: int)
    requires 0 <= i < 8 && Valid(b) && !Small(b)
    ensures 0 <= Measure(Octant(b, i)) < Measure(b)
  {
    OctantHalves(b, i);
    var o := Octant(b, i);
    var e := Extent(b);
    assert e > MinSize;
    assert Extent(o) == e / 2.0;
    FloorHalf(e);
  }

  lemma FloorHalf(e: real)
    requires e > 1.0
    ensures 0 <= (e / 2.0).Floor < e.Floor
  {
  }
}
