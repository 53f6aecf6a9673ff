/**
 * Octree nodes as values and the split BuildTree performs
 * (include/octotree.hpp lines 27-119).
 */
module OctreeNodes {
  import opened Triangles
  import opened Boxes

  /**
   * A node: its region, the triangles it keeps and its children. The
   * children are held by value (std::vector<OctTree>); the back pointer to
   * the parent is not part of the value.
   */
  datatype Node = Node(region: Box, elems: seq<Triangle>, children: seq<Node>)

  /** `OctTree()`: the default box, no triangles, no children. */
  const DefaultNode: Node := Node(DefaultBox, [], [])

  /** The first octant, from index a on, that contains t; 8 when none does. */
  function FirstFrom(b: Box, t: Triangle, a: int): (r: int)
    requires 0 <= a <= 8
    ensures a <= r <= 8
    ensures r < 8 ==> ContainsTriangle(Octant(b, r), t)
    ensures forall j :: a <= j < r ==> !ContainsTriangle(Octant(b, j), t)
    decreases 8 - a
  {
    if a == 8 then 8
    else if ContainsTriangle(Octant(b, a), t) then a
    else FirstFrom(b, t, a + 1)
  }

  function FirstOctant(b: Box, t: Triangle): int
  {
    FirstFrom(b, t, 0)
  }

  /** A triangle moves down when it is a TRIANGLE and some octant contains it. */
  predicate Moves(b: Box, t: Triangle)
  {
    t.kind == TriangleKind && FirstOctant(b, t) < 8
  }

  /** The triangles that stay in the node, in their original order. */
  function Remaining(b: Box, elems: seq<Triangle>): seq<Triangle>
    decreases |elems|
  {
    if elems == [] then []
    else
      var last := elems[|elems| - 1];
      Remaining(b, elems[..|elems| - 1]) + (if Moves(b, last) then [] else [last])
  }

  /** The triangles sent to octant i, in their original order. */
  function OctList(b: Box, elems: seq<Triangle>, i: int): seq<Triangle>
    decreases |elems|
  {
    if elems == [] then []
    else
      var last := elems[|elems| - 1];
      OctList(b, elems[..|elems| - 1], i) + (if Moves(b, last) && FirstOctant(b, last) == i then [last] else [])
  }

  /** A triangle stays exactly when it does not move. */
  lemma {:induction false} RemainingCharacterised(b: Box, elems: seq<Triangle>, t: Triangle)
    ensures t in Remaining(b, elems) <==> t in elems && !Moves(b, t)
    decreases |elems|
  {
    if elems != [] {
      var init := elems[..|elems| - 1];
      RemainingCharacterised(b, init, t);
      assert elems == init + [elems[|elems| - 1]];
    }
  }

  /**
   * Octant i receives exactly the moving triangles whose first containing
   * octant is i; hence each of them is contained in that octant and in no
   * earlier one.
   */
  lemma {:induction false} OctListCharacterised(b: Box, elems: seq<Triangle>, i: int, t: Triangle)
    ensures t in OctList(b, elems, i) <==> t in elems && Moves(b, t) && FirstOctant(b, t) == i
    decreases |elems|
  {
    if elems != [] {
      var init := elems[..|elems| - 1];
      OctListCharacterised(b, init, i, t);
      assert elems == init + [elems[|elems| - 1]];
    }
  }

  lemma OctListPlaced(b: Box, elems: seq<Triangle>, i: int, t: Triangle)
    requires 0 <= i < 8 && t in OctList(b, elems, i)
    ensures t.kind == TriangleKind && ContainsTriangle(Octant(b, i), t)
    ensures forall j :: 0 <= j < i ==> !ContainsTriangle(Octant(b, j), t)
  {
    OctListCharacterised(b, elems, i, t);
  }

  /** A non-empty octant list means the region has no NaN corner. */
  lemma OctListNonEmptyValid(b: Box, elems: seq<Triangle>, i: int)
    requires 0 <= i < 8 && OctList(b, elems, i) != []
    ensures Valid(b)
  {
    var t := OctList(b, elems, i)[0];
    OctListPlaced(b, elems, i, t);
  }

  lemma OctListSnoc(b: Box, init: seq<Triangle>, last: Triangle, i: int)
    ensures OctList(b, init + [last], i) ==
      OctList(b, init, i) + (if Moves(b, last) && FirstOctant(b, last) == i then [last] else [])
  {
    assert (init + [last])[..|init|] == init;
  }

  lemma RemainingSnoc(b: Box, init: seq<Triangle>, last: Triangle)
    ensures Remaining(b, init + [last]) == Remaining(b, init) + (if Moves(b, last) then [] else [last])
  {
    assert (init + [last])[..|init|] == init;
  }

  /** The octant lists from index i on, added up as multisets. */
  function SentFrom(b: Box, elems: seq<Triangle>, i: int): multiset<Triangle>
    requires 0 <= i <= 8
    decreases 8 - i
  {
    if i == 8 then multiset{} else multiset(OctList(b, elems, i)) + SentFrom(b, elems, i + 1)
  }

  lemma {:induction false} SentFromSnoc(b: Box, init: seq<Triangle>, last: Triangle, i: int)
    requires 0 <= i <= 8
    ensures SentFrom(b, init + [last], i) ==
      SentFrom(b, init, i) + (if Moves(b, last) && i <= FirstOctant(b, last) then multiset{last} else multiset{})
    decreases 8 - i
  {
    if i < 8 {
      OctListSnoc(b, init, last, i);
      SentFromSnoc(b, init, last, i + 1);
    }
  }

  /** One step of the split loses and duplicates nothing. */
  lemma {:induction false} SplitConserves(b: Box, elems: seq<Triangle>)
    ensures multiset(Remaining(b, elems)) + SentFrom(b, elems, 0) == multiset(elems)
    decreases |elems|
  {
    if elems == [] {
      SentFromEmpty(b, 0);
    } else {
      var init, last := elems[..|elems| - 1], elems[|elems| - 1];
      assert elems == init + [last];
      SplitConserves(b, init);
      SentFromSnoc(b, init, last, 0);
      RemainingSnoc(b, init, last);
    }
  }

  lemma {:induction false} SentFromEmpty(b: Box, i: int)
    requires 0 <= i <= 8
    ensures SentFrom(b, [], i) == multiset{}
    decreases 8 - i
  {
    if i < 8 {
      SentFromEmpty(b, i + 1);
    }
  }

  /**
   * BuildTree as a value: nothing changes when the node holds at most one
   * triangle or its region is small; otherwise the moving triangles go to
   * their octants, a child is built for every non-empty octant and the
   * other slots hold default nodes.
   */
  ghost function Build(region: Box, elems: seq<Triangle>): Node
    decreases Measure(region), 2, 0
  {
    if |elems| <= 1 || Small(region) then Node(region, elems, [])
    else Node(region, Remaining(region, elems), ChildrenFrom(region, elems, 0))
  }

  /** The child slots from index i on. */
  ghost function ChildrenFrom(region: Box, elems: seq<Triangle>, i: int): seq<Node>
    requires 0 <= i <= 8 && !Small(region)
    decreases Measure(region), 1, 8 - i
  {
    if i == 8 then [] else [Child(region, elems, i)] + ChildrenFrom(region, elems, i + 1)
  }

  ghost function Child(region: Box, elems: seq<Triangle>, i: int): Node
    requires 0 <= i < 8 && !Small(region)
    decreases Measure(region), 0, 0
  {
    var list := OctList(region, elems, i);
    if list == [] then DefaultNode
    else
      OctListNonEmptyValid(region, elems, i);
      OctantMeasureDecreases(region, i);
      Build(Octant(region, i), list)
  }

  /** Distribution loop of BuildTree: each TRIANGLE goes to the first octant that contains it. */
  method Distribute(region: Box, elems: seq<Triangle>) returns (rest: seq<Triangle>, lists: seq<seq<Triangle>>)
    ensures rest == Remaining(region, elems)
    ensures |lists| == 8 && forall i :: 0 <= i < 8 ==> lists[i] == OctList(region, elems, i)
  {
    var octant := [Octant(region, 0), Octant(region, 1), Octant(region, 2), Octant(region, 3),
                   Octant(region, 4), Octant(region, 5), Octant(region, 6), Octant(region, 7)];
    rest := [];
    lists := [[], [], [], [], [], [], [], []];
    var k := 0;
    while k < |elems|
      invariant 0 <= k <= |elems|
      invariant rest == Remaining(region, elems[..k])
      invariant |lists| == 8 && forall i :: 0 <= i < 8 ==> lists[i] == OctList(region, elems[..k], i)
    {
      var obj := elems[k];
      var moved := false;
      var target := 8;
      if obj.kind == TriangleKind {
        var a := 0;
        while a < 8
          invariant 0 <= a <= 8
          invariant FirstFrom(region, obj, a) == FirstOctant(region, obj)
        {
          if ContainsTriangle(octant[a], obj) {
            moved, target := true, a;
            break;
          }
          a := a + 1;
        }
      }
      assert moved <==> Moves(region, obj);
      assert moved ==> target == FirstOctant(region, obj);
      if moved {
        lists := lists[target := lists[target] + [obj]];
      } else {
        rest := rest + [obj];
      }
      assert elems[..k + 1][..k] == elems[..k];
      k := k + 1;
    }
    assert elems[..|elems|] == elems;
  }

  /** The recursive build on values; each child is split in turn. */
  method BuildNode(region: Box, elems: seq<Triangle>) returns (n: Node)
    ensures n == Build(region, elems)
    decreases Measure(region)
  {
    if |elems| <= 1 || Small(region) {
      return Node(region, elems, []);
    }
    var rest, lists := Distribute(region, elems);
    var children: seq<Node> := [];
    var a := 0;
    while a < 8
      invariant 0 <= a <= 8
      invariant children + ChildrenFrom(region, elems, a) == ChildrenFrom(region, elems, 0)
    {
      var child := DefaultNode;
      if |lists[a]| != 0 {
        OctListNonEmptyValid(region, elems, a);
        OctantMeasureDecreases(region, a);
        child := BuildNode(Octant(region, a), lists[a]);
      }
      assert child == Child(region, elems, a);
      assert ChildrenFrom(region, elems, a) == [child] + ChildrenFrom(region, elems, a + 1);
      children := children + [child];
      a := a + 1;
    }
    assert children == ChildrenFrom(region, elems, 0);
    n := Node(region, rest, children);
  }

  /** The triangles held anywhere in a subtree, counted with multiplicity. */
  ghost function Bag(n: Node): multiset<Triangle>
    decreases n, 1
  {
    multiset(n.elems) + BagOf(n.children)
  }

  ghost function BagOf(cs: seq<Node>): multiset<Triangle>
    decreases cs, 0
  {
    if cs == [] then multiset{} else Bag(cs[0]) + BagOf(cs[1..])
  }

  lemma {:induction false} ChildrenFromIndex(region: Box, elems: seq<Triangle>, i: int, k: int)
    requires 0 <= i <= k < 8 && !Small(region)
    ensures |ChildrenFrom(region, elems, i)| == 8 - i
    ensures ChildrenFrom(region, elems, i)[k - i] == Child(region, elems, k)
    decreases 8 - i
  {
    if i < k {
      ChildrenFromIndex(region, elems, i + 1, k);
    } else if i < 7 {
      ChildrenFromIndex(region, elems, i + 1, 7);
    }
  }

  /** Conservation: the whole tree built from a list holds exactly that list's triangles. */
  lemma {:induction false} BuildConserves(region: Box, elems: seq<Triangle>)
    ensures Bag(Build(region, elems)) == multiset(elems)
    decreases Measure(region), 2, 0
  {
    if !(|elems| <= 1 || Small(region)) {
      ChildrenBag(region, elems, 0);
      SplitConserves(region, elems);
    }
  }

  lemma {:induction false} ChildrenBag(region: Box, elems: seq<Triangle>, i: int)
    requires 0 <= i <= 8 && !Small(region)
    ensures BagOf(ChildrenFrom(region, elems, i)) == SentFrom(region, elems, i)
    decreases Measure(region), 1, 8 - i
  {
    if i < 8 {
      var cs := ChildrenFrom(region, elems, i);
      assert cs[1..] == ChildrenFrom(region, elems, i + 1);
      ChildBag(region, elems, i);
      ChildrenBag(region, elems, i + 1);
    }
  }

  lemma {:induction false} ChildBag(region: Box, elems: seq<Triangle>, i: int)
    requires 0 <= i < 8 && !Small(region)
    ensures Bag(Child(region, elems, i)) == multiset(OctList(region, elems, i))
    decreases Measure(region), 0, 0
  {
    var list := OctList(region, elems, i);
    if list != [] {
      OctListNonEmptyValid(region, elems, i);
      OctantMeasureDecreases(region, i);
      BuildConserves(Octant(region, i), list);
    }
  }

  lemma {:induction false} SentFromMember(b: Box, elems: seq<Triangle>, i: int, t: Triangle)
    requires 0 <= i <= 8 && t in SentFrom(b, elems, i)
    ensures exists k :: i <= k < 8 && t in OctList(b, elems, k)
    decreases 8 - i
  {
    if t !in multiset(OctList(b, elems, i)) {
      SentFromMember(b, elems, i + 1, t);
    }
  }

  /** Every triangle of a subtree lies in the subtree's region. */
  ghost predicate InRegion(n: Node)
  {
    forall t :: t in Bag(n) ==> ContainsTriangle(n.region, t)
  }

  /**
   * Containment, recursively: every child is a default node or the node
   * built on its octant, holds only triangles inside its region, and is
   * itself placed.
   */
  ghost predicate Placed(n: Node)
    decreases n, 1
  {
    forall k :: 0 <= k < |n.children| ==> ChildPlacedAt(n, k)
  }

  ghost predicate ChildPlacedAt(n: Node, k: int)
    requires 0 <= k < |n.children|
    decreases n, 0
  {
    var c := n.children[k];
    k < 8 && (c == DefaultNode || c.region == Octant(n.region, k)) && InRegion(c) && Placed(c)
  }

  lemma {:induction false} BuildPlaced(region: Box, elems: seq<Triangle>)
    ensures Placed(Build(region, elems))
    decreases Measure(region), 2, 0
  {
    if !(|elems| <= 1 || Small(region)) {
      var n := Build(region, elems);
      forall k | 0 <= k < |n.children|
        ensures ChildPlacedAt(n, k)
      {
        ChildrenFromIndex(region, elems, 0, 7);
        ChildrenFromIndex(region, elems, 0, k);
        ChildPlaced(region, elems, k);
      }
    }
  }

  lemma {:induction false} ChildPlaced(region: Box, elems: seq<Triangle>, i: int)
    requires 0 <= i < 8 && !Small(region)
    ensures var c := Child(region, elems, i);
      (c == DefaultNode || c.region == Octant(region, i)) && InRegion(c) && Placed(c)
    decreases Measure(region), 0, 0
  {
    var list := OctList(region, elems, i);
    if list != [] {
      OctListNonEmptyValid(region, elems, i);
      OctantMeasureDecreases(region, i);
      var c := Build(Octant(region, i), list);
      BuildConserves(Octant(region, i), list);
      BuildPlaced(Octant(region, i), list);
      forall t | t in Bag(c)
        ensures ContainsTriangle(c.region, t)
      {
        OctListPlaced(region, elems, i, t);
      }
    }
  }

  /**
   * The shape of a split node: it keeps the triangles that do not move, has
   * eight child slots, and a slot holds a default node exactly when its
   * octant received nothing.
   */
  lemma BuildShape(region: Box, elems: seq<Triangle>)
    requires |elems| > 1 && !Small(region)
    ensures var n := Build(region, elems);
      n.region == region && n.elems == Remaining(region, elems) && |n.children| == 8 &&
      forall k :: 0 <= k < 8 ==> (n.children[k] == DefaultNode <==> OctList(region, elems, k) == [])
  {
    var n := Build(region, elems);
    ChildrenFromIndex(region, elems, 0, 7);
    forall k | 0 <= k < 8
      ensures n.children[k] == DefaultNode <==> OctList(region, elems, k) == []
    {
      ChildrenFromIndex(region, elems, 0, k);
      ChildBag(region, elems, k);
      var list := OctList(region, elems, k);
      if list != [] {
        assert list[0] in multiset(list);
        assert Bag(DefaultNode) == multiset{};
      }
    }
  }

  /** A node with at most one triangle, or with a small region, is left as it is. */
  lemma BuildUnchanged(region: Box, elems: seq<Triangle>)
    requires |elems| <= 1 || Small(region)
    ensures Build(region, elems) == Node(region, elems, [])
  {
  }

  /**
   * Only TRIANGLE triangles move down: everything below the node is a
   * TRIANGLE, and every other triangle keeps its multiplicity in the node.
   */
  lemma BuildMovesOnlyTriangles(region: Box, elems: seq<Triangle>, t: Triangle)
    ensures t in BagOf(Build(region, elems).children) ==> t.kind == TriangleKind
    ensures t.kind != TriangleKind ==> multiset(Build(region, elems).elems)[t] == multiset(elems)[t]
  {
    if !(|elems| <= 1 || Small(region)) {
      ChildrenBag(region, elems, 0);
      SplitConserves(region, elems);
      if t in SentFrom(region, elems, 0) {
        SentFromMember(region, elems, 0, t);
        var k :| 0 <= k < 8 && t in OctList(region, elems, k);
        OctListPlaced(region, elems, k, t);
      }
    }
  }
}
