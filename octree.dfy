/** The octree node object (include/octotree.hpp lines 27-178). */
module Octree {
  import opened Triangles
  import opened Boxes
  import opened OctreeNodes
  import opened OctreePairs

  /**
   * OctTree: a region, the triangles kept at this node and the child nodes,
   * which the object holds by value. BuildTree rewrites the triangles and
   * the children in place.
   */
  class OctTree {
    var region: Box
    var elems: seq<Triangle>
    var children: seq<Node>

    /** `OctTree()`: the default box, no triangles, no children. */
    constructor Empty()
      ensures region == DefaultBox && elems == [] && children == []
    {
      region := DefaultBox;
      elems := [];
      children := [];
    }

    /** `OctTree(region, region_elems)`: no children yet. */
    constructor (region: Box, elems: seq<Triangle>)
      ensures this.region == region && this.elems == elems && children == []
    {
      this.region := region;
      this.elems := elems;
      children := [];
    }

    /** The object's state as a node value. */
    function AsNode(): Node
      reads this
    {
      Node(region, elems, children)
    }

    /**
     * BuildTree: with at most one triangle or a small region nothing
     * changes; otherwise the node keeps the triangles that do not move and
     * gets eight child slots, each a default node or the tree built on its
     * octant.
     */
    method BuildTree()
      modifies this
      ensures region == old(region)
      ensures old(|elems| <= 1 || Small(region)) ==> elems == old(elems) && children == old(children)
      ensures !old(|elems| <= 1 || Small(region)) ==> AsNode() == Build(region, old(elems))
    {
      if |elems| <= 1 || Small(region) {
        return;
      }
      var built := BuildNode(region, elems);
      elems := built.elems;
      children := built.children;
    }

    /** getTreeIntersectNum(parentObjs), as a set of ids. */
    method GetTreeIntersectNum(parents: seq<Triangle>) returns (ids: seq<int>)
      ensures Elements(ids) == TreeIds(AsNode(), parents)
    {
      ids := Collect(AsNode(), parents);
    }

    /** getAllTreeIntersectNum: the traversal from this node with no ancestors. */
    method GetAllTreeIntersectNum() returns (ids: seq<int>)
      ensures Elements(ids) == TreeIds(AsNode(), [])
    {
      ids := Collect(AsNode(), []);
    }
  }

  /**
   * Building a fresh tree keeps every triangle, places every triangle below
   * the root inside its node's region, and moves only TRIANGLE triangles.
   */
  method BuildFresh(region: Box, elems: seq<Triangle>) returns (tree: OctTree)
    ensures fresh(tree)
    ensures Bag(tree.AsNode()) == multiset(elems)
    ensures Placed(tree.AsNode())
    ensures forall t :: t in BagOf(tree.children) ==> t.kind == TriangleKind
  {
    tree := new OctTree(region, elems);
    tree.BuildTree();
    BuildConserves(region, elems);
    BuildPlaced(region, elems);
    forall t | t in BagOf(tree.children)
      ensures t.kind == TriangleKind
    {
      BuildMovesOnlyTriangles(region, elems, t);
    }
  }
}
