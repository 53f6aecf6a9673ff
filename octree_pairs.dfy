/**
 * The pair collector of the octree, getTreeIntersectNum
 * (include/octotree.hpp lines 121-169), and what its result means as a set.
 */
module OctreePairs {
  import opened Triangles
  import opened Intersection
  import opened OctreeNodes

  function Elements(s: seq<int>): set<int>
  {
    set x | x in s
  }

  lemma ElementsSnoc(s: seq<int>, x: int)
    ensures Elements(s + [x]) == Elements(s) + {x}
  {
  }

  lemma ElementsAppend(s: seq<int>, t: seq<int>)
    ensures Elements(s + t) == Elements(s) + Elements(t)
  {
  }

  /** The ids of the triangles of ps that t intersects. */
  ghost function Hits(t: Triangle, ps: seq<Triangle>): set<int>
    decreases |ps|
  {
    if ps == [] then {}
    else
      var last := ps[|ps| - 1];
      Hits(t, ps[..|ps| - 1]) + (if CheckIntersection(t, last) then {last.id} else {})
  }

  /** The ids one pass of an inner loop reports: the hits, and t itself once when there is a hit. */
  ghost function Tagged(t: Triangle, ps: seq<Triangle>): set<int>
  {
    Hits(t, ps) + (if Hits(t, ps) != {} then {t.id} else {})
  }

  /** What the first double loop reports for the first i triangles of the node against ps. */
  ghost function CrossIds(es: seq<Triangle>, ps: seq<Triangle>, i: int): set<int>
    requires 0 <= i <= |es|
  {
    if i == 0 then {} else CrossIds(es, ps, i - 1) + Tagged(es[i - 1], ps)
  }

  /** What the second double loop reports for the first i triangles, each against those after it. */
  ghost function SelfIds(es: seq<Triangle>, i: int): set<int>
    requires 0 <= i <= |es|
  {
    if i == 0 then {} else SelfIds(es, i - 1) + Tagged(es[i - 1], es[i..])
  }

  /**
   * The ids getTreeIntersectNum(ps) returns, as a set: the node against ps,
   * the node against itself, and every child against ps extended by the
   * node's triangles (once more for every child, as the source appends).
   */
  ghost function TreeIds(n: Node, ps: seq<Triangle>): set<int>
    decreases n, 1
  {
    CrossIds(n.elems, ps, |n.elems|) + SelfIds(n.elems, |n.elems|) + ChildrenIds(n.children, ps, n.elems)
  }

  ghost function ChildrenIds(cs: seq<Node>, ps: seq<Triangle>, es: seq<Triangle>): set<int>
    decreases cs, 0
  {
    if cs == [] then {} else TreeIds(cs[0], ps + es) + ChildrenIds(cs[1..], ps + es, es)
  }

  /**
   * One pass of an inner loop of getTreeIntersectNum: for every triangle of
   * ps that tr1 intersects, its id, and tr1's own id once (is_added).
   */
  method TagAgainst(tr1: Triangle, ps: seq<Triangle>) returns (ids: seq<int>)
    ensures Elements(ids) == Tagged(tr1, ps)
  {
    ids := [];
    var isAdded := false;
    var j := 0;
    while j < |ps|
      invariant 0 <= j <= |ps|
      invariant isAdded <==> Hits(tr1, ps[..j]) != {}
      invariant Elements(ids) == Hits(tr1, ps[..j]) + (if isAdded then {tr1.id} else {})
    {
      var tr2 := ps[j];
      assert ps[..j + 1][..j] == ps[..j];
      assert Hits(tr1, ps[..j + 1]) == Hits(tr1, ps[..j]) + (if CheckIntersection(tr1, tr2) then {tr2.id} else {});
      if CheckIntersection(tr1, tr2) {
        ElementsSnoc(ids, tr2.id);
        ids := ids + [tr2.id];
        if !isAdded {
          isAdded := true;
          ElementsSnoc(ids, tr1.id);
          ids := ids + [tr1.id];
        }
      }
      j := j + 1;
    }
    assert ps[..|ps|] == ps;
  }

  /** The first double loop: every triangle of the node against every triangle of ps. */
  method CollectCross(es: seq<Triangle>, ps: seq<Triangle>) returns (ids: seq<int>)
    ensures Elements(ids) == CrossIds(es, ps, |es|)
  {
    ids := [];
    var i := 0;
    while i < |es|
      invariant 0 <= i <= |es|
      invariant Elements(ids) == CrossIds(es, ps, i)
    {
      var tagged := TagAgainst(es[i], ps);
      ElementsAppend(ids, tagged);
      ids := ids + tagged;
      i := i + 1;
    }
  }

  /** The second double loop: every triangle of the node against the ones after it. */
  method CollectSelf(es: seq<Triangle>) returns (ids: seq<int>)
    ensures Elements(ids) == SelfIds(es, |es|)
  {
    ids := [];
    var i := 0;
    while i < |es|
      invariant 0 <= i <= |es|
      invariant Elements(ids) == SelfIds(es, i)
    {
      var tagged := TagAgainst(es[i], es[i + 1..]);
      ElementsAppend(ids, tagged);
      ids := ids + tagged;
      i := i + 1;
    }
  }

  /**
   * getTreeIntersectNum: the two double loops over the node, then every
   * child with the node's triangles appended to the ancestors once more.
   */
  method Collect(n: Node, parents: seq<Triangle>) returns (ids: seq<int>)
    ensures Elements(ids) == TreeIds(n, parents)
    decreases n
  {
    var es := n.elems;
    var cross := CollectCross(es, parents);
    var self := CollectSelf(es);
    ElementsAppend(cross, self);
    ids := cross + self;
    var ps := parents;
    var k := 0;
    while k < |n.children|
      invariant 0 <= k <= |n.children|
      invariant Elements(ids) + ChildrenIds(n.children[k..], ps, es) == TreeIds(n, parents)
    {
      ps := ps + es;
      var sub := Collect(n.children[k], ps);
      assert n.children[k..][1..] == n.children[k + 1..];
      ElementsAppend(ids, sub);
      ids := ids + sub;
      k := k + 1;
    }
  }

  // What the reported set means.

  lemma {:induction false} HitsCharacterised(t: Triangle, ps: seq<Triangle>, x: int)
    ensures x in Hits(t, ps) <==> exists j :: 0 <= j < |ps| && CheckIntersection(t, ps[j]) && ps[j].id == x
    decreases |ps|
  {
    if ps != [] {
      var init := ps[..|ps| - 1];
      HitsCharacterised(t, init, x);
      if x in Hits(t, init) {
        var j :| 0 <= j < |init| && CheckIntersection(t, init[j]) && init[j].id == x;
        assert ps[j] == init[j];
      }
      if exists j :: 0 <= j < |ps| && CheckIntersection(t, ps[j]) && ps[j].id == x {
        var j :| 0 <= j < |ps| && CheckIntersection(t, ps[j]) && ps[j].id == x;
        if j < |init| {
          assert init[j] == ps[j];
        }
      }
    }
  }

  lemma {:induction false} HitsNonEmpty(t: Triangle, ps: seq<Triangle>)
    ensures Hits(t, ps) != {} <==> exists j :: 0 <= j < |ps| && CheckIntersection(t, ps[j])
    decreases |ps|
  {
    if ps != [] {
      var init := ps[..|ps| - 1];
      HitsNonEmpty(t, init);
      if exists j :: 0 <= j < |init| && CheckIntersection(t, init[j]) {
        var j :| 0 <= j < |init| && CheckIntersection(t, init[j]);
        assert ps[j] == init[j];
      }
      if exists j :: 0 <= j < |ps| && CheckIntersection(t, ps[j]) {
        var j :| 0 <= j < |ps| && CheckIntersection(t, ps[j]);
        if j < |init| {
          assert init[j] == ps[j];
        } else {
          assert ps[j].id in Hits(t, ps);
        }
      }
    }
  }

  /** One inner pass reports the partners t intersects and, if there is one, t itself. */
  lemma TaggedCharacterised(t: Triangle, ps: seq<Triangle>, x: int)
    ensures x in Tagged(t, ps) <==>
      exists j :: 0 <= j < |ps| && CheckIntersection(t, ps[j]) && (x == ps[j].id || x == t.id)
  {
    HitsCharacterised(t, ps, x);
    HitsNonEmpty(t, ps);
    if exists j :: 0 <= j < |ps| && CheckIntersection(t, ps[j]) && (x == ps[j].id || x == t.id) {
      var j :| 0 <= j < |ps| && CheckIntersection(t, ps[j]) && (x == ps[j].id || x == t.id);
      HitsCharacterised(t, ps, ps[j].id);
    }
  }

  /** The first double loop reports exactly the ids of intersecting (node, ancestor) pairs. */
  lemma {:induction false} CrossIdsCharacterised(es: seq<Triangle>, ps: seq<Triangle>, i: int, x: int)
    requires 0 <= i <= |es|
    ensures x in CrossIds(es, ps, i) <==>
      exists a, j :: 0 <= a < i && 0 <= j < |ps| && CheckIntersection(es[a], ps[j]) && (x == es[a].id || x == ps[j].id)
  {
    if i > 0 {
      CrossIdsCharacterised(es, ps, i - 1, x);
      TaggedCharacterised(es[i - 1], ps, x);
    }
  }

  /** The second double loop reports exactly the ids of intersecting pairs of distinct positions in the node. */
  lemma {:induction false} SelfIdsCharacterised(es: seq<Triangle>, i: int, x: int)
    requires 0 <= i <= |es|
    ensures x in SelfIds(es, i) <==>
      exists a, b :: 0 <= a < i && a < b < |es| && CheckIntersection(es[a], es[b]) && (x == es[a].id || x == es[b].id)
  {
    if i > 0 {
      SelfIdsCharacterised(es, i - 1, x);
      var rest := es[i..];
      TaggedCharacterised(es[i - 1], rest, x);
      if x in Tagged(es[i - 1], rest) {
        var j :| 0 <= j < |rest| && CheckIntersection(es[i - 1], rest[j]) && (x == rest[j].id || x == es[i - 1].id);
        assert rest[j] == es[i + j];
      }
      if exists b :: i - 1 < b < |es| && CheckIntersection(es[i - 1], es[b]) && (x == es[i - 1].id || x == es[b].id) {
        var b :| i - 1 < b < |es| && CheckIntersection(es[i - 1], es[b]) && (x == es[i - 1].id || x == es[b].id);
        assert rest[b - i] == es[b];
      }
    }
  }

  // The reported set, described without the traversal: a node reached by a
  // path of child indices, the triangles of the ancestors on that path, and
  // the intersecting pairs the node forms with them or within itself.

  /** The triangles of a list, as a set. */
  function Members(ts: seq<Triangle>): set<Triangle>
  {
    set t | t in ts
  }

  lemma MembersAppend(s: seq<Triangle>, t: seq<Triangle>)
    ensures Members(s + t) == Members(s) + Members(t)
  {
  }

  /** A path of child indices that stays inside the tree. */
  predicate ValidPath(n: Node, p: seq<int>)
    decreases |p|
  {
    p == [] || (0 <= p[0] < |n.children| && ValidPath(n.children[p[0]], p[1..]))
  }

  /** The node a path leads to. */
  function Sub(n: Node, p: seq<int>): Node
    requires ValidPath(n, p)
    decreases |p|
  {
    if p == [] then n else Sub(n.children[p[0]], p[1..])
  }

  /** The ancestors' triangles at the end of a path: anc plus the triangles of every node the path leaves. */
  function AncestorsAlong(n: Node, p: seq<int>, anc: set<Triangle>): set<Triangle>
    requires ValidPath(n, p)
    decreases |p|
  {
    if p == [] then anc else AncestorsAlong(n.children[p[0]], p[1..], anc + Members(n.elems))
  }

  /**
   * x is the id of one side of an intersecting pair formed at a node with
   * triangles es: one of es against an ancestor, or two distinct positions
   * of es.
   */
  ghost predicate PairAt(es: seq<Triangle>, anc: set<Triangle>, x: int)
  {
    (exists a, t2 :: 0 <= a < |es| && t2 in anc && CheckIntersection(es[a], t2) && (x == es[a].id || x == t2.id)) ||
    (exists a, b :: 0 <= a < b < |es| && CheckIntersection(es[a], es[b]) && (x == es[a].id || x == es[b].id))
  }

  /** The two double loops at one node report exactly the pairs formed there. */
  lemma NodeIdsCharacterised(es: seq<Triangle>, ps: seq<Triangle>, x: int)
    ensures x in CrossIds(es, ps, |es|) + SelfIds(es, |es|) <==> PairAt(es, Members(ps), x)
  {
    CrossIdsCharacterised(es, ps, |es|, x);
    SelfIdsCharacterised(es, |es|, x);
    if exists a, j :: 0 <= a < |es| && 0 <= j < |ps| && CheckIntersection(es[a], ps[j]) && (x == es[a].id || x == ps[j].id) {
      var a, j :| 0 <= a < |es| && 0 <= j < |ps| && CheckIntersection(es[a], ps[j]) && (x == es[a].id || x == ps[j].id);
      assert ps[j] in Members(ps);
    }
    if exists a, t2 :: 0 <= a < |es| && t2 in Members(ps) && CheckIntersection(es[a], t2) && (x == es[a].id || x == t2.id) {
      var a, t2 :| 0 <= a < |es| && t2 in Members(ps) && CheckIntersection(es[a], t2) && (x == es[a].id || x == t2.id);
      var j :| 0 <= j < |ps| && ps[j] == t2;
    }
  }

  /**
   * Soundness: every reported id comes from a pair formed at some node of
   * the subtree, with that node's own triangles or with the triangles of ps
   * and of the nodes on its path; sibling subtrees are never compared.
   */
  lemma {:induction false} TreeIdsSound(n: Node, ps: seq<Triangle>, x: int)
    requires x in TreeIds(n, ps)
    ensures exists p :: ValidPath(n, p) && PairAt(Sub(n, p).elems, AncestorsAlong(n, p, Members(ps)), x)
    decreases n, 1
  {
    var es := n.elems;
    if x in CrossIds(es, ps, |es|) + SelfIds(es, |es|) {
      NodeIdsCharacterised(es, ps, x);
      assert ValidPath(n, []) && Sub(n, []) == n && AncestorsAlong(n, [], Members(ps)) == Members(ps);
    } else {
      ChildrenIdsSound(n.children, ps, es, x);
      var k, p :| 0 <= k < |n.children| && ValidPath(n.children[k], p) &&
        PairAt(Sub(n.children[k], p).elems, AncestorsAlong(n.children[k], p, Members(ps) + Members(es)), x);
      var q := [k] + p;
      assert q[0] == k && q[1..] == p;
      assert ValidPath(n, q);
      assert Sub(n, q) == Sub(n.children[k], p);
      assert AncestorsAlong(n, q, Members(ps)) == AncestorsAlong(n.children[k], p, Members(ps) + Members(es));
    }
  }

  lemma {:induction false} ChildrenIdsSound(cs: seq<Node>, ps: seq<Triangle>, es: seq<Triangle>, x: int)
    requires x in ChildrenIds(cs, ps, es)
    ensures exists k, p :: 0 <= k < |cs| && ValidPath(cs[k], p) &&
              PairAt(Sub(cs[k], p).elems, AncestorsAlong(cs[k], p, Members(ps) + Members(es)), x)
    decreases cs, 0
  {
    MembersAppend(ps, es);
    if x in TreeIds(cs[0], ps + es) {
      TreeIdsSound(cs[0], ps + es, x);
    } else {
      ChildrenIdsSound(cs[1..], ps + es, es, x);
      var k, p :| 0 <= k < |cs[1..]| && ValidPath(cs[1..][k], p) &&
        PairAt(Sub(cs[1..][k], p).elems, AncestorsAlong(cs[1..][k], p, Members(ps + es) + Members(es)), x);
      assert cs[1..][k] == cs[k + 1];
      assert Members(ps + es) + Members(es) == Members(ps) + Members(es);
    }
  }

  /**
   * Completeness at every depth: a pair formed at any node of the subtree,
   * within that node or with an ancestor's triangle, has its ids reported.
   */
  lemma {:induction false} TreeIdsComplete(n: Node, ps: seq<Triangle>, p: seq<int>, x: int)
    requires ValidPath(n, p) && PairAt(Sub(n, p).elems, AncestorsAlong(n, p, Members(ps)), x)
    ensures x in TreeIds(n, ps)
    decreases n, 1
  {
    if p == [] {
      NodeIdsCharacterised(n.elems, ps, x);
    } else {
      ChildrenIdsComplete(n.children, ps, n.elems, p[0], p[1..], x);
    }
  }

  lemma {:induction false} ChildrenIdsComplete(cs: seq<Node>, ps: seq<Triangle>, es: seq<Triangle>, k: int, p: seq<int>, x: int)
    requires 0 <= k < |cs| && ValidPath(cs[k], p)
    requires PairAt(Sub(cs[k], p).elems, AncestorsAlong(cs[k], p, Members(ps) + Members(es)), x)
    ensures x in ChildrenIds(cs, ps, es)
    decreases cs, 0
  {
    MembersAppend(ps, es);
    if k == 0 {
      TreeIdsComplete(cs[0], ps + es, p, x);
    } else {
      assert cs[1..][k - 1] == cs[k];
      assert Members(ps + es) + Members(es) == Members(ps) + Members(es);
      ChildrenIdsComplete(cs[1..], ps + es, es, k - 1, p, x);
    }
  }

  /** getTreeIntersectNum reports exactly the ids of the pairs formed along the paths of the tree. */
  lemma TreeIdsExact(n: Node, ps: seq<Triangle>, x: int)
    ensures x in TreeIds(n, ps) <==>
      exists p :: ValidPath(n, p) && PairAt(Sub(n, p).elems, AncestorsAlong(n, p, Members(ps)), x)
  {
    if x in TreeIds(n, ps) {
      TreeIdsSound(n, ps, x);
    }
    if exists p :: ValidPath(n, p) && PairAt(Sub(n, p).elems, AncestorsAlong(n, p, Members(ps)), x) {
      var p :| ValidPath(n, p) && PairAt(Sub(n, p).elems, AncestorsAlong(n, p, Members(ps)), x);
      TreeIdsComplete(n, ps, p, x);
    }
  }

  /** Completeness for ancestors: a subtree triangle meeting a triangle of ps has both ids reported. */
  lemma {:induction false} AncestorPairReported(n: Node, ps: seq<Triangle>, t1: Triangle, t2: Triangle)
    requires t1 in Bag(n) && t2 in ps && CheckIntersection(t1, t2)
    ensures t1.id in TreeIds(n, ps) && t2.id in TreeIds(n, ps)
    decreases n, 1
  {
    var es := n.elems;
    if t1 in multiset(es) {
      var a :| 0 <= a < |es| && es[a] == t1;
      var j :| 0 <= j < |ps| && ps[j] == t2;
      CrossIdsCharacterised(es, ps, |es|, t1.id);
      CrossIdsCharacterised(es, ps, |es|, t2.id);
    } else {
      ChildrenPairReported(n.children, ps, es, t1, t2);
    }
  }

  lemma {:induction false} ChildrenPairReported(cs: seq<Node>, ps: seq<Triangle>, es: seq<Triangle>, t1: Triangle, t2: Triangle)
    requires t1 in BagOf(cs) && (t2 in ps || t2 in es) && CheckIntersection(t1, t2)
    ensures t1.id in ChildrenIds(cs, ps, es) && t2.id in ChildrenIds(cs, ps, es)
    decreases cs, 0
  {
    if t1 in Bag(cs[0]) {
      AncestorPairReported(cs[0], ps + es, t1, t2);
    } else {
      ChildrenPairReported(cs[1..], ps + es, es, t1, t2);
    }
  }

  /** Completeness inside a node: two intersecting triangles at distinct positions are both reported. */
  lemma SameNodePairReported(n: Node, ps: seq<Triangle>, a: int, b: int)
    requires 0 <= a < b < |n.elems| && CheckIntersection(n.elems[a], n.elems[b])
    ensures n.elems[a].id in TreeIds(n, ps) && n.elems[b].id in TreeIds(n, ps)
  {
    SelfIdsCharacterised(n.elems, |n.elems|, n.elems[a].id);
    SelfIdsCharacterised(n.elems, |n.elems|, n.elems[b].id);
  }

  /** Completeness across one level: a triangle below the node meeting one of the node's own triangles. */
  lemma ChildNodePairReported(n: Node, ps: seq<Triangle>, t1: Triangle, t2: Triangle)
    requires t1 in BagOf(n.children) && t2 in n.elems && CheckIntersection(t1, t2)
    ensures t1.id in TreeIds(n, ps) && t2.id in TreeIds(n, ps)
  {
    ChildrenPairReported(n.children, ps, n.elems, t1, t2);
  }

  /** es repeated m times. */
  function Repeat(es: seq<Triangle>, m: nat): seq<Triangle>
  {
    if m == 0 then [] else es + Repeat(es, m - 1)
  }

  lemma {:induction false} ChildIdsIncluded(cs: seq<Node>, ps: seq<Triangle>, es: seq<Triangle>, k: int)
    requires 0 <= k < |cs|
    ensures TreeIds(cs[k], ps + Repeat(es, k + 1)) <= ChildrenIds(cs, ps, es)
    decreases k
  {
    if k == 0 {
      assert Repeat(es, 1) == es;
    } else {
      ChildIdsIncluded(cs[1..], ps + es, es, k - 1);
      assert ps + es + Repeat(es, k) == ps + Repeat(es, k + 1);
    }
  }

  /**
   * Child k is visited with the ancestors extended by k + 1 copies of the
   * node's triangles, and everything it reports is reported by the node.
   */
  lemma SubtreeIdsIncluded(n: Node, ps: seq<Triangle>, k: int)
    requires 0 <= k < |n.children|
    ensures TreeIds(n.children[k], ps + Repeat(n.elems, k + 1)) <= TreeIds(n, ps)
  {
    ChildIdsIncluded(n.children, ps, n.elems, k);
  }
}
