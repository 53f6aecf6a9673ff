# Triangles: a Dafny model of the geometry core and the octree

This project models the C++ library that decides which triangles of a scene
intersect. It covers these parts:

- the tolerant double comparison and the four-way min and max (`src/config.cpp`);
- vectors, points, planes and lines (`include/vector.hpp`, `include/point.hpp`,
  `include/plane.hpp`, `include/line.hpp`), plus the older line code in
  `lvl-1/include/line.hpp`;
- triangles, their classification into NONE/POINT/LINE/TRIANGLE, and the
  triangle–triangle test (`include/triangles.hpp`);
- the interval type (`include/interval.hpp`);
- the octree that spreads triangles over octants and collects the ids of
  intersecting pairs (`include/octotree.hpp`).

Each header has its own module:

| module | file | models |
|---|---|---|
| `Config` | config.dfy | `double_cmp`, `get_min_of_four`, `get_max_of_four` |
| `Vectors` | vectors.dfy | `Vector`, `valid`, `equal`, `normalize`, `dot`, `cross` |
| `Points` | points.dfy | `Point`, `norm`, `operator-`, `equal`, `point_from_vector`, `vector_from_point`, `three_points_on_one_line` |
| `Planes` | planes.dfy | `Plane` and its constructors, `normalize_plane`, `substitute`, `operator==`, `planes_are_parallel`, the intersection vector and point |
| `Triangles` | triangles.dfy | `Triangle`, its constructor with the norm swaps, `validate`, `point_in_triangle` |
| `Intersection` | intersection.dfy | `check_intersection`, `intersect_triangle_with_triangle_in_3D`, the 2D stub |
| `Lines` | lines.dfy | `Line`, `is_point_on_line`, `intersect_line_with_line`, `get_line_from_triangle`, `intersect_line_with_point` |
| `LinesLvl1` | lines_lvl1.dfy | the same functions in `lvl-1/include/line.hpp` |
| `Intervals` | intervals.dfy | `Interval` and `std::max`/`std::min` on NaN |
| `Boxes` | boxes.dfy | `BoundingBox`, `MIN_SIZE`, the center and the eight octants |
| `OctreeNodes` | octree_nodes.dfy | one `BuildTree` step on node values: the distribution loop and the children |
| `OctreePairs` | octree_pairs.dfy | `getTreeIntersectNum`, as loops over node values |
| `Octree` | octree.dfy | the `OctTree` object, whose methods update its fields |
| `Scenarios` | scenarios.dfy | three triangle pairs from `src/google_test.cpp`, worked through the model |

## How the model is built

**Numbers.** Coordinates are mathematical reals, so rounding is not modelled.

**NaN.** NaN is modelled per value. A `Vector` or `Point` is either three
reals or `NaNVector`/`NaNPoint`. Default construction gives the NaN value,
as the C++ member initialisers `= NAN` do. Every operation that propagates
NaN propagates it explicitly. Scalar results such as `dot`, `norm` and
`substitute` need valid operands. Callers send the NaN case to the outcome
that IEEE comparisons would give, which is false. Only `Interval` holds
scalar doubles, so only it uses `Double = Num(real) | NaN`.

**Square roots.** `std::sqrt` appears as an extra `len` argument constrained
by `len >= 0 && len * len == |v|^2`.

**Triangles.** The constructor is an imperative method, `NewTriangle`, with
the three conditional swaps. The function `Construct` specifies it.

**Octree.** `OctTree` is a class. Its `std::vector<OctTree>` of children
holds values, so the children are `Node` values. `BuildTree` replaces the
object's triangle list and children with the result of `BuildNode`.
`BuildNode` is a method with the same loops as the source. Its ghost
specification `Build` recurses on the halving octants.

**Output lists.** The id lists are gathered by loops like the source's.
They are specified as sets.

## Model

| member | source | states |
|---|---|---|
| Config.Cmp | src/config.cpp:3 | two doubles compare equal exactly when they are within `_epsilon` of each other, bounds included |
| Config.CmpReflexive | src/config.cpp:3 | every value compares equal to itself |
| Config.CmpSymmetric | src/config.cpp:3 | the tolerance comparison does not depend on argument order |
| Config.CmpNotTransitive | src/config.cpp:3 | the tolerance comparison is not transitive: 0 ~ eps and eps ~ 2 eps, but 0 and 2 eps differ |
| Config.MinOfFour | src/config.cpp:5-7 | the result is at most each argument and is one of them |
| Config.MaxOfFour | src/config.cpp:9-11 | the result is at least each argument and is one of them |
| Config.MinOfFourLeMaxOfFour | src/config.cpp:5-11 | the minimum of four values never exceeds their maximum |
| Vectors.Valid | include/vector.hpp:28-31 | a vector is valid exactly when it is not NaNVector, that is, none of its coordinates is NaN (NaN is all-or-nothing, see Left out); a default vector is invalid (Vectors.DefaultVectorInvalid) |
| Vectors.DefaultVectorInvalid | include/vector.hpp:8 | a default-constructed vector (NaN coordinates) is not valid |
| Vectors.Equal | include/vector.hpp:33-40 | the validity guard followed by `cmp` on each coordinate; what it promises is proved in Vectors.EqualInvalid, Vectors.EqualReflexive and Vectors.EqualSymmetric |
| Vectors.EqualInvalid | include/vector.hpp:35-36 | a NaN operand makes equal false |
| Vectors.EqualReflexive | include/vector.hpp:33-40 | a valid vector is equal to itself |
| Vectors.EqualSymmetric | include/vector.hpp:33-40 | equal does not depend on argument order |
| Vectors.Dot | include/vector.hpp:48-51 | the sum of the coordinate products of two valid vectors; properties in Vectors.DotSymmetric and Vectors.CrossOrthogonal |
| Vectors.DotSymmetric | include/vector.hpp:48-51 | the dot product is symmetric |
| Vectors.Cross | include/vector.hpp:53-60 | the cross product is valid exactly when both operands are |
| Vectors.CrossAnticommutative | include/vector.hpp:53-60 | swapping the operands negates the cross product |
| Vectors.CrossSelfZero | include/vector.hpp:53-60 | a vector crossed with itself is zero |
| Vectors.CrossWithZero | include/vector.hpp:53-60 | crossing with the zero vector gives zero on either side |
| Vectors.CrossOrthogonal | include/vector.hpp:53-60 | the cross product is orthogonal to both operands |
| Vectors.Normalize | include/vector.hpp:14-23 | a length within epsilon of zero leaves the vector unchanged; otherwise the result is the vector divided by its length and has unit length; NaN stays NaN |
| Vectors.NormalizeZero | include/vector.hpp:14-18 | normalising the zero vector returns it unchanged |
| Points.Valid | include/point.hpp:31-33 | a point is valid exactly when it is not NaNPoint, that is, none of its coordinates is NaN (NaN is all-or-nothing, see Left out); a default point is invalid (Points.DefaultPointInvalid) |
| Points.DefaultPointInvalid | include/point.hpp:12 | a default-constructed point (NaN coordinates) is not valid |
| Points.Norm | include/point.hpp:22 | the squared norm is never negative |
| Points.Minus | include/point.hpp:26-28 | the difference is valid exactly when both points are, and translating the second point by it gives back the first |
| Points.MinusSelfZero | include/point.hpp:26-28 | a point minus itself is the zero vector |
| Points.Equal | include/point.hpp:35-42 | the validity guard followed by `cmp` on each coordinate; what it promises is proved in Points.EqualInvalid, Points.EqualReflexive and Points.EqualSymmetric |
| Points.EqualInvalid | include/point.hpp:37-38 | a NaN operand makes equal false |
| Points.EqualReflexive | include/point.hpp:35-42 | a valid point is equal to itself |
| Points.EqualSymmetric | include/point.hpp:35-42 | equal does not depend on argument order |
| Points.VectorFromPoint | include/vector.hpp:42-46 | the vector is valid exactly when the point is and leads from the origin to the point |
| Points.PointFromVector | include/point.hpp:44-47 | the point is valid exactly when the vector is and lies at that offset from the origin |
| Points.PointVectorRoundTrip | include/point.hpp:44-47 | converting a point to a vector and back, or a vector to a point and back, is the identity |
| Points.ThreePointsOnOneLine | include/point.hpp:49-58 | the cross product of b - a and c - a is valid and within epsilon of zero on every axis; properties in Points.CoincidentPointsOnOneLine, Points.InvalidNotOnOneLine and Triangles.CollinearDistinctIsTriangle |
| Points.CoincidentPointsOnOneLine | include/point.hpp:49-58 | three valid points of which two coincide are reported collinear |
| Points.InvalidNotOnOneLine | include/point.hpp:49-58 | a NaN point is never reported collinear with others |
| Planes.Substitute | include/plane.hpp:66-68 | the left-hand side A x + B y + C z + D of the plane equation at a valid point; properties in Planes.RawPlaneThroughPoints and Planes.NormalizePlaneKeepsSide |
| Planes.RawPlane | include/plane.hpp:27-39 | the plane through three points has the cross product of the edge vectors as its coefficients and normal, and passes through the first point |
| Planes.RawPlaneThroughPoints | include/plane.hpp:27-39 | all three defining points satisfy the plane equation |
| Planes.RawPlaneFromCoordinates | include/plane.hpp:41-54 | the nine-coordinate constructor computes the same coefficients as Planes.RawPlane, before the `normalize_plane()` call at line 53 |
| Planes.NormalizePlane | include/plane.hpp:12-24 | a normal length within epsilon of zero leaves the plane unchanged; otherwise a, b, c and d are all divided by that positive length; the stored normal is not rescaled |
| Planes.NormalizePlaneKeepsSide | include/plane.hpp:12-24 | normalising keeps the sign of every point's substitution, so strict side tests are unaffected |
| Planes.MakePlane | include/plane.hpp:27-39 | the constructed plane, after normalisation, still passes through the three points, and its normal is the edge cross product |
| Planes.Equal | include/plane.hpp:70-80 | all four coefficients agree within epsilon, as they are or with the first plane negated; properties in the lemmas below |
| Planes.EqualReflexive | include/plane.hpp:70-80 | every plane equals itself |
| Planes.EqualSymmetric | include/plane.hpp:70-80 | plane equality does not depend on argument order |
| Planes.EqualToNegated | include/plane.hpp:70-80 | a plane equals the plane with all four coefficients negated |
| Planes.Parallel | include/plane.hpp:89-102 | A, B and C agree within epsilon, as they are or with the first plane negated; properties in Planes.EqualPlanesAreParallel, Planes.ParallelSymmetric and Planes.ParallelNotEqual |
| Planes.EqualPlanesAreParallel | include/plane.hpp:70-102 | equal planes are parallel |
| Planes.ParallelSymmetric | include/plane.hpp:89-102 | parallelism does not depend on argument order |
| Planes.ParallelNotEqual | include/plane.hpp:89-102 | z = 0 and z = 1 are parallel but not equal |
| Planes.IntersectionVector | include/plane.hpp:104-108 | the intersection direction is valid exactly when both normals are, and it is orthogonal to both normals |
| Planes.IntersectionPoint | include/plane.hpp:110-143 | the point is valid exactly when some 2x2 determinant is not within epsilon of zero; then it lies on both planes, in the z = 0, y = 0 or x = 0 plane according to the first branch taken |
| Planes.SolveAtZ | include/plane.hpp:121-125 | with z fixed at 0, Cramer's rule gives a point on both planes |
| Planes.SolveAtY | include/plane.hpp:128-132 | with y fixed at 0, Cramer's rule gives a point on both planes |
| Planes.SolveAtX | include/plane.hpp:135-139 | with x fixed at 0, Cramer's rule gives a point on both planes |
| Planes.Cramer | include/plane.hpp:121-139 | Cramer's formulas solve a 2x2 system with nonzero determinant |
| Triangles.Classify | include/triangles.hpp:18-32 | validate: NONE, POINT, LINE or TRIANGLE by exact comparison of the vertices; characterised in Triangles.ClassifyCharacterised |
| Triangles.ClassifyCharacterised | include/triangles.hpp:18-32 | NONE exactly when a vertex is NaN; POINT exactly when all three vertices coincide; LINE exactly when exactly two distinct positions occur; TRIANGLE exactly when all three are distinct |
| Triangles.ClassifyPermutation | include/triangles.hpp:18-32 | the classification does not depend on the order of the vertices |
| Triangles.CollinearDistinctIsTriangle | include/triangles.hpp:18-32 | three distinct collinear points are classified TRIANGLE, since validate never tests collinearity |
| Triangles.Reorder | include/triangles.hpp:40-50 | the three conditional swaps by `norm() <=`; proved a permutation that sorts valid vertices in Triangles.ReorderPermutes and Triangles.ReorderSorts |
| Triangles.ReorderPermutes | include/triangles.hpp:40-50 | the three swaps permute the vertices |
| Triangles.PermutationMultiset | include/triangles.hpp:40-50 | a listed permutation keeps the multiset of vertices |
| Triangles.ReorderSorts | include/triangles.hpp:40-50 | after the swaps the vertices are in non-increasing squared norm |
| Triangles.Construct | include/triangles.hpp:35-53 | the triangle the constructor produces: reordered vertices, their type and the id; the constructor method Triangles.NewTriangle is proved equal to it |
| Triangles.NewTriangle | include/triangles.hpp:35-53 | the constructed triangle holds a permutation of the inputs, sorted by non-increasing norm when they are valid, classified by validate, with the given id |
| Triangles.PointInTriangle | include/point.hpp:60-88 | the three normalised edge cross products: two near zero, one near zero with two agreeing, or all three agreeing; properties in Triangles.VertexInTriangle and Triangles.InvalidPointNotInTriangle |
| Triangles.VertexInTriangle | include/point.hpp:60-88 | each vertex of a triangle with valid vertices is reported inside it |
| Triangles.InvalidPointNotInTriangle | include/point.hpp:60-88 | a NaN point is never reported inside a triangle |
| Intersection.Intersect2D | include/triangles.hpp:214-218 | the 2D test is a stub that answers true |
| Intersection.Intersect3DWithLengths | include/triangles.hpp:102-155 | the 3D test as written: false when one triangle lies strictly on one side of the other's normalised plane, otherwise true through the 2D stub or the line branch; equal to Intersection.Intersect3D by Intersection.Intersect3DLengthsIrrelevant |
| Intersection.Intersect3D | include/triangles.hpp:110-126 | the same answer on the raw planes: true unless one triangle lies strictly on one side of the other's plane; Intersection.RejectionSound proves a false answer means the triangles share no point |
| Intersection.Intersect3DLengthsIrrelevant | include/triangles.hpp:102-126 | the answer with normalised planes is the same as with the raw planes, whatever the admissible normal lengths |
| Intersection.RejectionSound | include/triangles.hpp:110-126 | when the test answers false, no point of the first triangle (any convex combination of its vertices) coincides with a point of the second |
| Intersection.SubstituteCombine | include/triangles.hpp:110-126 | substituting a convex combination of the vertices gives the same combination of the vertex substitutions |
| Intersection.WeightedSumKeepsSign | include/triangles.hpp:113-114 | a convex combination of three values strictly of one sign is nonzero |
| Intersection.CheckIntersection | include/triangles.hpp:70-100 | two TRIANGLE triangles go to the 3D test, two POINT triangles meet when their points are equal, every other pair is false; properties in the lemmas below |
| Intersection.CheckIntersectionSymmetric | include/triangles.hpp:70-100 | check_intersection does not depend on argument order |
| Intersection.CheckIntersectionReflexive | include/triangles.hpp:70-100 | a well-formed TRIANGLE or POINT triangle intersects itself |
| Intersection.CheckIntersectionKinds | include/triangles.hpp:70-100 | the function answers true only for two TRIANGLE triangles, or for two POINT triangles at the same position |
| Lines.Valid | include/line.hpp:16 | a line is valid exactly when both its direction and its anchor point are valid; a default line is invalid (Lines.DefaultLineInvalid) |
| Lines.DefaultLineInvalid | include/line.hpp:8-16 | a default line (NaN vector and point) is not valid |
| Lines.ZeroNearlyZero | include/line.hpp:24-33 | the zero vector counts as nearly zero |
| Lines.Equal | include/line.hpp:24-33 | the cross product of the anchors' difference with the other line's direction is near zero on every axis; properties in the lemmas below |
| Lines.EqualReflexive | include/line.hpp:24-33 | a valid line equals itself |
| Lines.EqualInvalid | include/line.hpp:24-33 | a NaN anchor on the left or an invalid right-hand line makes equality false |
| Lines.EqualIgnoresOwnDirection | include/line.hpp:24-33 | equality never reads the left-hand line's direction |
| Lines.EqualNotSymmetric | include/line.hpp:24-33 | line equality is not symmetric: a pair is equal one way round and unequal the other |
| Lines.IsPointOnLine | include/line.hpp:36-45 | is_point_on_line as written: per axis, direction times the point's coordinate plus the anchor's coordinate is within epsilon of zero; Lines.AnchorNotOnLineAsWritten shows it rejects the anchor |
| Lines.AnchorNotOnLineAsWritten | include/line.hpp:36-45 | as written, is_point_on_line rejects a line's own anchor point |
| Lines.PointOnLine | include/line.hpp:106-111 | the tolerant cross-product test of intersect_line_with_point: the point minus the anchor is parallel to the direction within epsilon; Lines.PointsAlongLineAreOnIt proves every point along the line passes it |
| Lines.PointsAlongLineAreOnIt | include/line.hpp:36-45 | with the evidently intended test, every point anchor + k * direction is on the line |
| Lines.IntersectLineWithLine | include/line.hpp:47-77 | a valid result needs valid lines, a denominator not within epsilon of zero, and a distance within epsilon of zero; it is then the closest point on the second line; those conditions also guarantee a valid result |
| Lines.DistanceIsSquaredGap | include/line.hpp:69-71 | the quadratic form the source evaluates is the squared distance between the two parametrised points |
| Lines.ParamsAreStationary | include/line.hpp:60-67 | the parameters s and t solve the normal equations, so they give the closest pair of points |
| Lines.DenominatorIsCrossSquared | include/line.hpp:60-63 | the denominator is the squared length of the cross product of the directions, so it vanishes exactly for parallel directions |
| Lines.IntersectionNearBothLines | include/line.hpp:47-77 | a valid intersection lies on the second line and within sqrt(epsilon) of the first |
| Lines.LineFromTriangle | include/line.hpp:79-98 | the default line unless the triangle is a LINE; otherwise anchored at a, with direction c - a or b - a by exact comparison; properties in Lines.LineFromTriangleThroughVertices and Lines.LineFromTriangleNotLine |
| Lines.LineFromTriangleThroughVertices | include/line.hpp:79-98 | for a LINE triangle the line is anchored at a vertex, has a nonzero direction, and passes through all three vertices |
| Lines.LineFromTriangleNotLine | include/line.hpp:79-98 | any other kind of triangle gives the default line |
| Lines.IntersectLineWithPoint | include/line.hpp:100-114 | the first vertex of the second triangle passes the cross-product test against the first triangle's line; cases in Lines.IntersectLineWithPointCases |
| Lines.IntersectLineWithPointCases | include/line.hpp:100-114 | the answer is false unless the first triangle is a LINE; a point at one of the line's vertices is accepted |
| LinesLvl1.IntersectLineWithLine | lvl-1/include/line.hpp:45-76 | the lvl-1 line–line intersection, building the point coordinate by coordinate; equal to Lines.IntersectLineWithLine by LinesLvl1.IntersectLineWithLineAgrees |
| LinesLvl1.IntersectLineWithLineAgrees | lvl-1/include/line.hpp:45-76 | the older line–line intersection gives the same answer as the current one |
| LinesLvl1.LineFromTriangle | lvl-1/include/line.hpp:78-97 | the line of a LINE triangle chosen with the tolerant point equality; its relation to the exact choice is proved in LinesLvl1.LineFromTriangleAgrees, and where they differ in LinesLvl1.ZeroDirectionAsWritten |
| LinesLvl1.LineFromTriangleAgrees | lvl-1/include/line.hpp:78-97 | when tolerant and exact vertex equality agree, the older line is the current one |
| LinesLvl1.IntersectLineWithPoint | lvl-1/include/line.hpp:99-110 | the cross-product test against the tolerant line of the first triangle; properties in LinesLvl1.IntersectLineWithPointNotLine and LinesLvl1.ZeroDirectionAsWritten |
| LinesLvl1.IntersectLineWithPointNotLine | lvl-1/include/line.hpp:99-110 | only a LINE triangle can meet a point |
| LinesLvl1.ZeroDirectionAcceptsEverything | lvl-1/include/line.hpp:99-110 | the cross-product test of intersect_line_with_point meets every valid point when the line's direction is zero |
| LinesLvl1.ZeroDirectionAsWritten | lvl-1/include/line.hpp:85-90 | as written, two vertices within epsilon of each other give a zero direction, and the line then meets a far-away point that the exact line rejects |
| Intervals.StdMax | include/interval.hpp:14 | std::max of two numbers is their maximum; a NaN first argument is returned unchanged |
| Intervals.StdMin | include/interval.hpp:15 | std::min of two numbers is their minimum; a NaN first argument is returned unchanged |
| Intervals.MakeInterval | include/interval.hpp:13-16 | t0 is std::max and t1 is std::min of the two ends; properties in Intervals.MakeIntervalOrdered, Intervals.MakeIntervalSymmetric and Intervals.MakeIntervalWithNaN |
| Intervals.Valid | include/interval.hpp:20 | neither end is NaN; properties in Intervals.DefaultIntervalInvalid and Intervals.MakeIntervalWithNaN |
| Intervals.DefaultIntervalInvalid | include/interval.hpp:7-11 | the default interval (both ends NaN) is not valid |
| Intervals.MakeIntervalOrdered | include/interval.hpp:13-16 | from two numbers the interval is valid, keeps the larger as t0 and the smaller as t1, and holds the two inputs |
| Intervals.MakeIntervalSymmetric | include/interval.hpp:13-16 | the interval does not depend on argument order |
| Intervals.MakeIntervalWithNaN | include/interval.hpp:13-20 | a NaN first end makes the interval invalid; a NaN second end is dropped, leaving a valid interval at the first end |
| Boxes.ContainsPoint | include/octotree.hpp:16-20 | min <= p <= max on every axis, bounds included, false with any NaN; properties in Boxes.DefaultBoxHoldsOnlyOrigin and Boxes.CornersInside |
| Boxes.ContainsTriangle | include/octotree.hpp:22-24 | the box contains all three vertices |
| Boxes.DefaultBoxHoldsOnlyOrigin | include/octotree.hpp:13-20 | a default box contains exactly the origin |
| Boxes.CornersInside | include/octotree.hpp:16-20 | bounds are inclusive: both corners of an ordered box are inside it |
| Boxes.Small | include/octotree.hpp:46-50 | every extent of the region is at most MIN_SIZE |
| Boxes.Octant | include/octotree.hpp:52-82 | the eight octants, each the lower or upper half of every axis around the center; Boxes.OctantInside, Boxes.OctantsCover and Boxes.OctantHalves say they partition the region into halves |
| Boxes.OctantInside | include/octotree.hpp:52-82 | every point of an octant is inside its region |
| Boxes.OctantInsideTriangle | include/octotree.hpp:22-24 | a triangle inside an octant is inside the region |
| Boxes.CoveringOctant | include/octotree.hpp:52-82 | for a point of the region, comparing it with the center finds an octant that holds it |
| Boxes.OctantsCover | include/octotree.hpp:52-82 | the eight octants together cover the region |
| Boxes.OctantHalves | include/octotree.hpp:52-82 | each octant has half its region's extent along every axis |
| Boxes.OctantMeasureDecreases | include/octotree.hpp:46-82 | a region that is split has a positive integer measure, and every octant's measure is strictly smaller |
| OctreeNodes.FirstFrom | include/octotree.hpp:94-100 | the search finds the first octant, from a given index on, that contains the triangle, or 8 when none does |
| OctreeNodes.Remaining | include/octotree.hpp:88-106 | the triangles left at the node after the distribution loop; characterised in OctreeNodes.RemainingCharacterised |
| OctreeNodes.OctList | include/octotree.hpp:88-106 | the triangles the loop sends to octant i; characterised in OctreeNodes.OctListCharacterised |
| OctreeNodes.RemainingCharacterised | include/octotree.hpp:88-106 | a triangle stays at the node exactly when it was there and does not move |
| OctreeNodes.OctListCharacterised | include/octotree.hpp:88-106 | a triangle goes to list i exactly when it was at the node, moves, and i is the first octant holding it |
| OctreeNodes.OctListPlaced | include/octotree.hpp:93-100 | every triangle in list i is of kind TRIANGLE, lies in octant i, and lies in no earlier octant |
| OctreeNodes.SplitConserves | include/octotree.hpp:88-106 | the triangles kept and those sent to the eight lists together are exactly the original multiset |
| OctreeNodes.Distribute | include/octotree.hpp:88-106 | the loop leaves the kept triangles and the eight octant lists, each in original order |
| OctreeNodes.Build | include/octotree.hpp:42-119 | the tree BuildTree leaves, as a value: the early exits, the kept triangles and eight child slots, each default or built on its octant; properties in OctreeNodes.BuildConserves, OctreeNodes.BuildPlaced and OctreeNodes.BuildShape |
| OctreeNodes.BuildNode | include/octotree.hpp:42-119 | the node built has the shape the recursive specification gives |
| OctreeNodes.BuildConserves | include/octotree.hpp:42-119 | building keeps every triangle, as a multiset over the whole subtree |
| OctreeNodes.BuildPlaced | include/octotree.hpp:42-119 | in the built tree every child node's triangles lie inside that child's region |
| OctreeNodes.BuildShape | include/octotree.hpp:108-118 | a split node keeps its region and the triangles that did not move, and gets eight children, each default exactly when its list is empty |
| OctreeNodes.BuildUnchanged | include/octotree.hpp:43-50 | with at most one triangle, or a region no larger than MIN_SIZE on every axis, nothing changes |
| OctreeNodes.BuildMovesOnlyTriangles | include/octotree.hpp:93 | only TRIANGLE triangles go to children; each other triangle stays at the root as often as it appeared |
| OctreePairs.TreeIds | include/octotree.hpp:121-169 | the ids getTreeIntersectNum returns, as a set; characterised in OctreePairs.TreeIdsExact |
| OctreePairs.TagAgainst | include/octotree.hpp:126-141 | the ids pushed for one triangle against the ancestors are those of the ancestors it hits, plus its own if it hits any |
| OctreePairs.CollectCross | include/octotree.hpp:126-141 | the first double loop reports every id of a node–ancestor pair that intersects |
| OctreePairs.CollectSelf | include/octotree.hpp:143-158 | the second double loop reports every id of an intersecting pair of distinct positions at the node |
| OctreePairs.Collect | include/octotree.hpp:121-169 | the ids gathered are the set the recursive specification gives |
| OctreePairs.HitsCharacterised | include/octotree.hpp:128-134 | an id is a hit exactly when some ancestor with that id intersects the triangle |
| OctreePairs.TaggedCharacterised | include/octotree.hpp:126-141 | an id is tagged exactly when it belongs to an intersecting pair of the triangle and an ancestor |
| OctreePairs.CrossIdsCharacterised | include/octotree.hpp:126-141 | the first loop's ids are exactly the ids of intersecting node–ancestor pairs |
| OctreePairs.SelfIdsCharacterised | include/octotree.hpp:143-158 | the second loop's ids are exactly the ids of intersecting pairs at distinct positions |
| OctreePairs.NodeIdsCharacterised | include/octotree.hpp:126-158 | the two double loops at one node report exactly the ids of the pairs of that node's triangles with the ancestors or with each other |
| OctreePairs.TreeIdsSound | include/octotree.hpp:121-169 | every reported id comes from an intersecting pair formed at one node of the subtree: two distinct positions of that node, or a triangle of that node with a triangle of the ancestors passed in or of a node on its path from the root; sibling subtrees are never compared |
| OctreePairs.TreeIdsComplete | include/octotree.hpp:121-169 | at every depth, both ids of such a pair are reported: two intersecting triangles of one node, or a triangle of a node with an intersecting triangle of an ancestor or of a node above it |
| OctreePairs.TreeIdsExact | include/octotree.hpp:121-169 | the ids reported are exactly those of the pairs formed along the paths of the tree, in both directions |
| OctreePairs.AncestorPairReported | include/octotree.hpp:121-169 | a subtree triangle that meets an ancestor is reported together with that ancestor |
| OctreePairs.SameNodePairReported | include/octotree.hpp:143-158 | two intersecting triangles at the same node are both reported |
| OctreePairs.ChildNodePairReported | include/octotree.hpp:160-166 | a triangle below a node that meets a triangle of that node is reported together with it |
| OctreePairs.SubtreeIdsIncluded | include/octotree.hpp:160-166 | the ids each child reports, with the node's triangles appended once per child visited so far, are among the node's ids |
| Octree.OctTree.Empty | include/octotree.hpp:37 | the default object has the default box, no triangles and no children |
| Octree.OctTree.constructor | include/octotree.hpp:38-40 | the object holds the given region and triangles, with no children |
| Octree.OctTree.BuildTree | include/octotree.hpp:42-119 | the region is kept; with at most one triangle or a small region nothing changes; otherwise the object becomes the built node |
| Octree.OctTree.GetTreeIntersectNum | include/octotree.hpp:121-169 | the returned ids are the set for this node and the given ancestors |
| Octree.OctTree.GetAllTreeIntersectNum | include/octotree.hpp:171-177 | the returned ids are the set for this node with no ancestors |
| Octree.BuildFresh | include/octotree.hpp:38-119 | building a new tree keeps every triangle, places each child's triangles in its region, and moves only TRIANGLE triangles |
| Scenarios.Accepted3D1 | src/google_test.cpp:86-97 | for the reordered Intersection3D_1 pair no side test rejects, so the 3D test answers true |
| Scenarios.Scenario3D1 | src/google_test.cpp:86-97 | Intersection3D_1, built with the constructor, intersects, as the test expects |
| Scenarios.Rejected3D4 | src/google_test.cpp:125-136 | the second triangle of Intersection3D_4 lies strictly below the first one's plane, so the 3D test answers false |
| Scenarios.Scenario3D4 | src/google_test.cpp:125-136 | Intersection3D_4, built with the constructor, does not intersect, as the test expects |
| Scenarios.Coplanar2D6 | src/google_test.cpp:73-84 | the coplanar Intersection2D_6 pair passes both side tests and reaches the 2D stub |
| Scenarios.Scenario2D6 | src/google_test.cpp:73-84 | Intersection2D_6 is answered true, where the test expects false, because the 2D test is a stub |

## Left out

- Printing (`print`, `print_no_endl`, `inter_line.print()`, the `std::cerr`
  messages): output only.
- IEEE rounding: arithmetic is exact on reals.
- Scalar NaN: NaN is all-or-nothing in each vector or point. Scalar functions
  require valid operands; `Interval` alone holds NaN scalars.
- `std::sqrt` is a `len` parameter with the defining equation as a
  precondition; the model does not compute it.
- Vectors.Normalize: `normalize()` updates the vector in place; the model
  returns the new value.
- Planes.NormalizePlane: `normalize_plane` rewrites a, b, c and d in place
  inside both constructors; the model returns the normalised plane.
- Intersection.Intersect3D: the 2D branch (include/triangles.hpp:214-218)
  returns true without testing. The line computation after the D test
  (include/triangles.hpp:144-154) also ends in true. Both branches answer
  true, so the model answers true once both side tests pass. It does not
  model the discarded `Line` value.
- Scenarios.Scenario2D6: the Intersection2D_6 test expects false. The code as
  written answers true because the 2D test is a stub.
- The commented-out calls in `check_intersection`
  (include/triangles.hpp:80-94) are not modelled; those type pairs fall
  through to `return false`, as modelled. The commented-out interval
  computation is not modelled either.
- `Interval::overlap` is declared but never defined
  (include/interval.hpp:18), so there is nothing to model.
- The copies of `get_planes_intersection_vector` and
  `get_planes_intersection_point` in include/triangles.hpp:157-212 are
  modelled once, in `Planes`.
- Planes.IntersectionPoint: when all three determinants are within epsilon of
  zero, the source returns a point with uninitialised coordinates. The model
  returns `NaNPoint`.
- Triangles.NewTriangle: the source constructor takes nine doubles. The model
  takes three points, the form the tests use, plus an id.
- The `id` of a triangle: `include/octotree.hpp` reads `tr.id`, but the
  `Triangle` class in include/triangles.hpp declares no such member. The
  model gives `Triangle` an `id` field.
- Triangles.WellFormed: `validate` calls `a.valid()` as a member, but
  `valid` is a free function. The model reads it as `valid(a)`.
- The test helper in `src/google_test.cpp` uses strict `<` in
  `double_cmp`. The model follows `src/config.cpp`, which uses `<=`.
- Triangles.CollinearDistinctIsTriangle: test LineWithPoint Intersection_1
  (src/google_test.cpp:496-508) expects a line through (1,1,1), (2,2,2),
  (3,3,3). That triangle is classified TRIANGLE, so in the model the line
  test answers false.
- The lvl-1 `Point` is taken to default to NaN coordinates, like the main
  `Point`.
- The `parent` pointer (include/octotree.hpp:35) is set but never read, so it
  is not modelled.
- The `new[]` buffers for the octants and the octant lists in `BuildTree`
  are modelled as sequences. The source never frees them; this leak is not
  modelled.
- Octree.OctTree.BuildTree: children are node values, not separate objects,
  because `std::vector<OctTree>` holds them by value. The recursion on each
  child happens inside `BuildNode`, on values.
- OctreePairs.Collect: the order and multiplicity of the returned list are
  not claimed; only the set of ids is.
  - `std::list::unique`, `sort` and `merge` are replaced by concatenation.
  - `unique` removes only adjacent duplicates, so the source's final list may
    still hold repeated ids; that is not modelled.
- Visualisation, shaders, the camera, the UI and `main` are outside the
  model. Reading triangles from input is outside it too.

## Findings

| source | as written | input that shows it | evidently intended | confidence | as-written member | corrected member |
|---|---|---|---|---|---|---|
| include/line.hpp:36-45 | `is_point_on_line` accepts a point when, per axis, the direction coordinate times the point coordinate plus the anchor coordinate is within epsilon of 0; that is not a test of lying on the line | the line with direction (1,0,0) anchored at (1,0,0) rejects its own anchor: 1 * 1 + 1 = 2 on the x axis | accept the point when the cross product of `point - line.point` with the direction is within epsilon of zero, as `intersect_line_with_point` does | not executed | Lines.AnchorNotOnLineAsWritten | Lines.PointsAlongLineAreOnIt |
| lvl-1/include/line.hpp:85-90 | the direction is chosen with tolerant `equal`, so a LINE triangle whose two distinct vertices lie within epsilon gets the zero direction | the LINE triangle (1, 1.0000005, 0), (1.0000005, 1, 0), (1, 1.0000005, 0) gets direction 0, and the line then meets the point (0, 0, 100) | choose the direction with the same exact equality that `validate` used | not executed | LinesLvl1.ZeroDirectionAsWritten | Lines.LineFromTriangleThroughVertices |
