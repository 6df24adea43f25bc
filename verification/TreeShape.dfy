// The pooled nodes of a dynamic tree: which of them form the tree and which
// are free. A rank that falls from parent to child rules out cycles.
module TreeShape {
  import opened Boxes

  const NULL := -1

  // link is the parent of a node in the tree and the next node of a free one.
  datatype TreeNode = TreeNode(aabb: AABB, userData: int, link: int, child1: int, child2: int)

  predicate IsLeaf(n: TreeNode) { n.child1 == NULL }

  predicate HasChild(n: TreeNode, c: int) { n.child1 == c || n.child2 == c }

  // ---------- the tree ----------

  ghost predicate Shape(nodes: seq<TreeNode>, root: int, t: set<int>, rank: seq<real>) {
    && |rank| == |nodes| && (root == NULL <==> t == {}) && (root != NULL ==> root in t)
    && forall n :: n in t ==> ShapeAt(nodes, root, t, rank, n)
  }

  ghost predicate ShapeAt(nodes: seq<TreeNode>, root: int, t: set<int>, rank: seq<real>, n: int)
    requires |rank| == |nodes|
  {
    && 0 <= n < |nodes|
    && (if n == root then nodes[n].link == NULL
        else
          var p := nodes[n].link;
          p in t && 0 <= p < |nodes| && HasChild(nodes[p], n) && rank[n] < rank[p])
    && (if IsLeaf(nodes[n]) then nodes[n].child2 == NULL
        else ChildOf(nodes, t, n, nodes[n].child1) && ChildOf(nodes, t, n, nodes[n].child2)
             && nodes[n].child1 != nodes[n].child2)
  }

  ghost predicate ChildOf(nodes: seq<TreeNode>, t: set<int>, n: int, c: int) {
    c in t && 0 <= c < |nodes| && nodes[c].link == n
  }

  // The box of a parent contains those of its children; the node x is exempt.
  ghost predicate Boxed(nodes: seq<TreeNode>, t: set<int>, x: int) {
    forall n :: n in t && n != x ==> BoxedAt(nodes, n)
  }

  ghost predicate BoxedAt(nodes: seq<TreeNode>, n: int) {
    0 <= n < |nodes| && !IsLeaf(nodes[n]) ==> Encloses(nodes, n, nodes[n].child1) && Encloses(nodes, n, nodes[n].child2)
  }

  ghost predicate Encloses(nodes: seq<TreeNode>, n: int, c: int) {
    0 <= n < |nodes| && 0 <= c < |nodes| ==> Contains(nodes[n].aabb, nodes[c].aabb)
  }

  // The leaves of the tree, with their boxes and user data.
  ghost function Leaves(nodes: seq<TreeNode>, t: set<int>): map<int, (AABB, int)> {
    map n | n in t && 0 <= n < |nodes| && IsLeaf(nodes[n]) :: (nodes[n].aabb, nodes[n].userData)
  }

  // The nodes of lower rank.
  ghost function Below(t: set<int>, rank: seq<real>, n: int): set<int> {
    set m | m in t && 0 <= m < |rank| && 0 <= n < |rank| && rank[m] < rank[n]
  }

  ghost function Above(t: set<int>, rank: seq<real>, n: int): set<int> {
    set m | m in t && 0 <= m < |rank| && 0 <= n < |rank| && rank[m] > rank[n]
  }

  lemma Lower(t: set<int>, rank: seq<real>, n: int, c: int)
    requires n in t && c in t && 0 <= n < |rank| && 0 <= c < |rank| && rank[c] < rank[n]
    ensures Below(t, rank, c) < Below(t, rank, n) && Above(t, rank, n) < Above(t, rank, c)
  {
    assert c in Below(t, rank, n) && n in Above(t, rank, c);
  }

  // ---------- the free list ----------

  ghost predicate FreeList(nodes: seq<TreeNode>, first: int, free: seq<int>) {
    && first == (if free == [] then NULL else free[0])
    && (forall i, j :: 0 <= i < j < |free| ==> free[i] != free[j])
    && forall i :: 0 <= i < |free| ==> FreeAt(nodes, free, i)
  }

  ghost predicate FreeAt(nodes: seq<TreeNode>, free: seq<int>, i: nat)
    requires i < |free|
  {
    0 <= free[i] < |nodes| && nodes[free[i]].link == if i + 1 < |free| then free[i + 1] else NULL
  }

  // ---------- linking and unlinking ----------

  function WithChild(n: TreeNode, was: int, c: int): TreeNode {
    if n.child1 == was then n.(child1 := c) else n.(child2 := c)
  }

  // nodes' is nodes with leaf and a new parent inserted at sibling.
  ghost predicate Linked(nodes: seq<TreeNode>, sibling: int, leaf: int, parent: int, nodes': seq<TreeNode>) {
    && 0 <= sibling < |nodes| && 0 <= leaf < |nodes| && 0 <= parent < |nodes| && |nodes'| == |nodes|
    && nodes'[sibling] == nodes[sibling].(link := parent) && nodes'[leaf] == nodes[leaf].(link := parent)
    && nodes'[parent].link == nodes[sibling].link && nodes'[parent].child1 == sibling && nodes'[parent].child2 == leaf
    && forall n :: 0 <= n < |nodes| && n != sibling && n != leaf && n != parent ==>
         nodes'[n] == if n == nodes[sibling].link then WithChild(nodes[n], sibling, parent) else nodes[n]
  }

  // A rank between those of a node and of its parent.
  ghost function RankAbove(nodes: seq<TreeNode>, rank: seq<real>, n: int): real
    requires |rank| == |nodes| && 0 <= n < |nodes|
  {
    var p := nodes[n].link;
    if 0 <= p < |nodes| then (rank[n] + rank[p]) / 2.0 else rank[n] + 1.0
  }

  ghost function RankLinked(nodes: seq<TreeNode>, rank: seq<real>, sibling: int, leaf: int, parent: int): seq<real>
    requires |rank| == |nodes| && 0 <= sibling < |nodes| && 0 <= leaf < |nodes| && 0 <= parent < |nodes|
  {
    var r := RankAbove(nodes, rank, sibling);
    rank[parent := r][leaf := r - 1.0]
  }

  lemma LinkShape(nodes: seq<TreeNode>, root: int, t: set<int>, rank: seq<real>, sibling: int, leaf: int, parent: int,
                  nodes': seq<TreeNode>)
    requires Shape(nodes, root, t, rank) && sibling in t && leaf !in t && parent !in t && leaf != parent
    requires 0 <= leaf < |nodes| && IsLeaf(nodes[leaf]) && nodes[leaf].child2 == NULL
    requires Linked(nodes, sibling, leaf, parent, nodes')
    ensures Shape(nodes',
            if sibling == root then parent
                else root, t + {leaf, parent}, RankLinked(nodes, rank, sibling, leaf, parent))
  {
    hide Shape, ShapeAt, Linked;
    ShapeBasics(nodes, root, t, rank);
    LinkedLength(nodes, sibling, leaf, parent, nodes');
    var root', t' := if sibling == root then parent else root, t + {leaf, parent};
    var rank' := RankLinked(nodes, rank, sibling, leaf, parent);
    ShapeHolds(nodes, root, t, rank, sibling);
    forall n | n in t' ensures ShapeAt(nodes', root', t', rank', n) {
      if n in t {
        ShapeHolds(nodes, root, t, rank, n);
        if nodes[sibling].link in t { ShapeHolds(nodes, root, t, rank, nodes[sibling].link); }
        LinkAt(nodes, root, t, rank, sibling, leaf, parent, nodes', n);
      } else {
        LinkNew(nodes, root, t, rank, sibling, leaf, parent, nodes', n);
      }
    }
    ShapeFrom(nodes', root', t', rank');
  }

  lemma LinkedLength(nodes: seq<TreeNode>, sibling: int, leaf: int, parent: int, nodes': seq<TreeNode>)
    requires Linked(nodes, sibling, leaf, parent, nodes')
    ensures |nodes'| == |nodes| && 0 <= sibling < |nodes| && 0 <= leaf < |nodes| && 0 <= parent < |nodes|
  {
  }

  lemma LinkAt(nodes: seq<TreeNode>, root: int, t: set<int>, rank: seq<real>, sibling: int, leaf: int, parent: int,
               nodes': seq<TreeNode>, n: int)
    requires |rank| == |nodes| && sibling in t && leaf !in t && parent !in t
             && Linked(nodes, sibling, leaf, parent, nodes')
    requires n in t && ShapeAt(nodes, root, t, rank, n) && ShapeAt(nodes, root, t, rank, sibling)
    requires nodes[sibling].link in t ==> ShapeAt(nodes, root, t, rank, nodes[sibling].link)
    ensures ShapeAt(nodes', if sibling == root then parent else root, t + {leaf, parent},
                    RankLinked(nodes, rank, sibling, leaf, parent), n)
  {
  }

  lemma LinkNew(nodes: seq<TreeNode>, root: int, t: set<int>, rank: seq<real>, sibling: int, leaf: int, parent: int,
                nodes': seq<TreeNode>, n: int)
    requires |rank| == |nodes| && sibling in t && leaf !in t && parent !in t
             && Linked(nodes, sibling, leaf, parent, nodes')
    requires IsLeaf(nodes[leaf]) && nodes[leaf].child2 == NULL && leaf != parent && (n == leaf || n == parent)
    requires ShapeAt(nodes, root, t, rank, sibling) && root in t
    ensures ShapeAt(nodes', if sibling == root then parent else root, t + {leaf, parent},
                    RankLinked(nodes, rank, sibling, leaf, parent), n)
  {
    var p := nodes[sibling].link;
    if sibling != root { assert p in t && nodes'[p] == WithChild(nodes[p], sibling, parent); }
  }

  function SiblingOf(nodes: seq<TreeNode>, n: int): int
    requires 0 <= n < |nodes| && 0 <= nodes[n].link < |nodes|
  {
    var p := nodes[nodes[n].link];
    if p.child1 == n then p.child2 else p.child1
  }

  // nodes' is nodes with leaf and its parent taken out.
  ghost predicate Unlinked(nodes: seq<TreeNode>, leaf: int, nodes': seq<TreeNode>) {
    && 0 <= leaf < |nodes| == |nodes'| && 0 <= nodes[leaf].link < |nodes|
    && var parent, sibling := nodes[leaf].link, SiblingOf(nodes, leaf);
       && 0 <= sibling < |nodes| && nodes'[sibling] == nodes[sibling].(link := nodes[parent].link)
       && forall n :: 0 <= n < |nodes| && n != sibling && n != leaf && n != parent ==>
            nodes'[n] == if n == nodes[parent].link then WithChild(nodes[n], parent, sibling) else nodes[n]
  }

  // The relatives of a leaf.
  lemma Relatives(nodes: seq<TreeNode>, root: int, t: set<int>, rank: seq<real>, leaf: int)
    requires Shape(nodes, root, t, rank) && leaf in t && leaf != root
    ensures 0 <= leaf < |nodes| && 0 <= nodes[leaf].link < |nodes|
    ensures var parent, sibling := nodes[leaf].link, SiblingOf(nodes, leaf);
            && parent in t && sibling in t && sibling != leaf && parent != leaf && parent != sibling
              && 0 <= sibling < |nodes|
            && !IsLeaf(nodes[parent]) && nodes[sibling].link == parent && HasChild(nodes[parent], sibling)
              && sibling != root
            && (forall n :: n in t && n != root && 0 <= n < |nodes| && nodes[n].link == parent ==>
              n == leaf || n == sibling)
  {
    var parent := nodes[leaf].link;
    assert ShapeAt(nodes, root, t, rank, leaf) && ShapeAt(nodes, root, t, rank, parent);
    var sibling := SiblingOf(nodes, leaf);
    assert ShapeAt(nodes, root, t, rank, sibling);
    forall n | n in t && n != root && 0 <= n < |nodes| && nodes[n].link == parent ensures n == leaf || n == sibling {
      assert ShapeAt(nodes, root, t, rank, n);
    }
  }

  lemma UnlinkShape(nodes: seq<TreeNode>, root: int, t: set<int>, rank: seq<real>, leaf: int, nodes': seq<TreeNode>)
    requires Shape(nodes, root, t, rank) && leaf in t && leaf != root && 0 <= leaf < |nodes| && IsLeaf(nodes[leaf])
    requires Unlinked(nodes, leaf, nodes')
    ensures var parent, sibling := nodes[leaf].link, SiblingOf(nodes, leaf);
            Shape(nodes', if parent == root then sibling else root, t - {leaf, parent}, rank)
  {
    hide Shape, ShapeAt, Unlinked;
    ShapeBasics(nodes, root, t, rank);
    UnlinkedLength(nodes, leaf, nodes');
    Relatives(nodes, root, t, rank, leaf);
    var parent, sibling := nodes[leaf].link, SiblingOf(nodes, leaf);
    var root', t' := if parent == root then sibling else root, t - {leaf, parent};
    forall n | n in t' ensures ShapeAt(nodes', root', t', rank, n) {
      ShapeHolds(nodes, root, t, rank, n);
      ShapeHolds(nodes, root, t, rank, parent);
      ShapeHolds(nodes, root, t, rank, leaf);
      ShapeHolds(nodes, root, t, rank, sibling);
      UnlinkAt(nodes, root, t, rank, leaf, nodes', n);
    }
    assert leaf in t && root != NULL && root' in t';
    ShapeFrom(nodes', root', t', rank);
  }

  lemma ShapeBasics(nodes: seq<TreeNode>, root: int, t: set<int>, rank: seq<real>)
    requires Shape(nodes, root, t, rank)
    ensures |rank| == |nodes| && (root == NULL <==> t == {}) && (root != NULL ==> root in t)
  {
  }

  lemma UnlinkedLength(nodes: seq<TreeNode>, leaf: int, nodes': seq<TreeNode>)
    requires Unlinked(nodes, leaf, nodes')
    ensures |nodes'| == |nodes|
  {
  }

  lemma ShapeHolds(nodes: seq<TreeNode>, root: int, t: set<int>, rank: seq<real>, n: int)
    requires Shape(nodes, root, t, rank) && n in t
    ensures |rank| == |nodes| && ShapeAt(nodes, root, t, rank, n) && 0 <= n < |nodes|
  {
  }

  lemma ShapeFrom(nodes: seq<TreeNode>, root: int, t: set<int>, rank: seq<real>)
    requires |rank| == |nodes| && (root == NULL <==> t == {}) && (root != NULL ==> root in t)
    requires forall n :: n in t ==> ShapeAt(nodes, root, t, rank, n)
    ensures Shape(nodes, root, t, rank)
  {
  }

  lemma UnlinkAt(nodes: seq<TreeNode>, root: int, t: set<int>, rank: seq<real>, leaf: int, nodes': seq<TreeNode>,
                 n: int)
    requires |rank| == |nodes| && Unlinked(nodes, leaf, nodes') && leaf in t && leaf != root && 0 <= leaf < |nodes|
             && IsLeaf(nodes[leaf])
    requires var parent, sibling := nodes[leaf].link, SiblingOf(nodes, leaf);
             && ShapeAt(nodes, root, t, rank, n) && ShapeAt(nodes, root, t, rank, parent)
               && ShapeAt(nodes, root, t, rank, leaf)
             && ShapeAt(nodes, root, t, rank, sibling) && sibling != leaf && parent != sibling && parent != leaf
             && parent in t && sibling in t && sibling != root && nodes[sibling].link == parent
             && n in t && n != leaf && n != parent
             && (n != root && nodes[n].link == parent ==> n == sibling)
    ensures var parent, sibling := nodes[leaf].link, SiblingOf(nodes, leaf);
            ShapeAt(nodes', if parent == root then sibling else root, t - {leaf, parent}, rank, n)
  {
  }

  // ---------- ancestors' boxes ----------

  // Another box for node n.
  lemma ReboxShape(nodes: seq<TreeNode>, root: int, t: set<int>, rank: seq<real>, n: int, box: AABB)
    requires Shape(nodes, root, t, rank) && 0 <= n < |nodes|
    ensures Shape(nodes[n := nodes[n].(aabb := box)], root, t, rank)
  {
    var nodes' := nodes[n := nodes[n].(aabb := box)];
    forall m | m in t ensures ShapeAt(nodes', root, t, rank, m) { assert ShapeAt(nodes, root, t, rank, m); }
  }

  // A node that got the least box for its children; its parent may now be too small.
  lemma ReboxUp(nodes: seq<TreeNode>, root: int, t: set<int>, rank: seq<real>, n: int)
    requires Shape(nodes, root, t, rank) && n in t && 0 <= n < |nodes| && !IsLeaf(nodes[n]) && Boxed(nodes, t, n)
    ensures 0 <= nodes[n].child1 < |nodes| && 0 <= nodes[n].child2 < |nodes|
    ensures var box := Combine(nodes[nodes[n].child1].aabb, nodes[nodes[n].child2].aabb);
            var nodes' := nodes[n := nodes[n].(aabb := box)];
            && Boxed(nodes', t, nodes[n].link) && BoxedAt(nodes', n)
            && (Contains(nodes[n].aabb, box) ==> Boxed(nodes', t, NULL) || !BoxedAt(nodes, nodes[n].link))
            && Leaves(nodes', t) == Leaves(nodes, t)
  {
    assert ShapeAt(nodes, root, t, rank, n);
    var box := Combine(nodes[nodes[n].child1].aabb, nodes[nodes[n].child2].aabb);
    var nodes' := nodes[n := nodes[n].(aabb := box)];
    CombineLeast(nodes[nodes[n].child1].aabb, nodes[nodes[n].child2].aabb, box);
    forall m | m in t && m != nodes[n].link ensures BoxedAt(nodes', m) {
      assert ShapeAt(nodes, root, t, rank, m);
      if m != n { assert BoxedAt(nodes, m); }
    }
  }

  // ---------- the pool ----------

  // Every node is in the tree, detached (in d) or free, and the free ones are counted.
  ghost predicate Pool(nodes: seq<TreeNode>, first: int, free: seq<int>, t: set<int>, d: set<int>, count: int) {
    && FreeList(nodes, first, free) && count == |nodes| - |free| && |nodes| > 0 && t !! d
    && (forall i :: i in free ==> i !in t && i !in d)
    && (forall i :: i in t || i in d ==> 0 <= i < |nodes|)
    && (forall i :: 0 <= i < |nodes| ==> i in t || i in d || i in free)
  }

  // Taking the first free node; its links are cleared.
  lemma TakeFree(nodes: seq<TreeNode>, first: int, free: seq<int>, t: set<int>, d: set<int>, count: int,
                 nodes': seq<TreeNode>)
    requires Pool(nodes, first, free, t, d, count) && free != []
    ensures 0 <= first < |nodes| && first !in t && first !in d
    ensures nodes[first].link == if |free| > 1 then free[1] else NULL
    ensures |nodes'| == |nodes| && (forall i :: 0 <= i < |nodes| && i != first ==> nodes'[i] == nodes[i]) ==>
              Pool(nodes', nodes[first].link, free[1..], t, d + {first}, count + 1)
  {
    assert FreeAt(nodes, free, 0) && first in free;
    if |nodes'| == |nodes| && (forall i :: 0 <= i < |nodes| && i != first ==> nodes'[i] == nodes[i]) {
      var rest := free[1..];
      assert free == [first] + rest;
      forall i | 0 <= i < |rest| ensures FreeAt(nodes', rest, i) { assert FreeAt(nodes, free, i + 1); }
    }
  }

  // A detached node goes back to the front of the free list.
  lemma PutFree(nodes: seq<TreeNode>, first: int, free: seq<int>, t: set<int>, d: set<int>, count: int, id: int,
                nodes': seq<TreeNode>)
    requires Pool(nodes, first, free, t, d, count) && id in d && |nodes'| == |nodes| && nodes'[id].link == first
    requires forall i :: 0 <= i < |nodes| && i != id ==> nodes'[i] == nodes[i]
    ensures Pool(nodes', id, [id] + free, t, d - {id}, count - 1)
  {
    var free' := [id] + free;
    assert id !in free;
    forall i | 0 <= i < |free'| ensures FreeAt(nodes', free', i) {
      if i > 0 { assert FreeAt(nodes, free, i - 1) && free[i - 1] in free; }
    }
  }

  // The pool only looks at the links of free nodes.
  lemma PoolStays(nodes: seq<TreeNode>, first: int, free: seq<int>, t: set<int>, d: set<int>, count: int,
                  nodes': seq<TreeNode>, t': set<int>, d': set<int>)
    requires Pool(nodes, first, free, t, d, count) && |nodes'| == |nodes| && t' + d' == t + d && t' !! d'
    requires forall i :: 0 <= i < |nodes| && i !in t && i !in d ==> nodes'[i] == nodes[i]
    ensures Pool(nodes', first, free, t', d', count)
  {
    assert forall i :: (i in t' || i in d') <==> (i in t || i in d);
    forall i | 0 <= i < |free| ensures FreeAt(nodes', free, i) { assert FreeAt(nodes, free, i) && free[i] in free; }
  }

  // A full pool doubled; the new nodes are linked up.
  lemma PoolGrown(nodes: seq<TreeNode>, first: int, t: set<int>, d: set<int>, count: int, nodes': seq<TreeNode>)
    requires Pool(nodes, first, [], t, d, count) && |nodes'| == 2 * |nodes| && nodes'[..|nodes|] == nodes
    requires forall i :: |nodes| <= i < |nodes'| ==> nodes'[i].link == if i + 1 < |nodes'| then i + 1 else NULL
    ensures Pool(nodes', |nodes|, seq(|nodes|, i => |nodes| + i), t, d, count)
  {
    var free := seq(|nodes|, i => |nodes| + i);
    forall i | |nodes| <= i < |nodes'| ensures i in free { assert free[i - |nodes|] == i; }
  }

  // More nodes at the end change nothing about the tree.
  lemma ShapeGrown(nodes: seq<TreeNode>, root: int, t: set<int>, rank: seq<real>, nodes': seq<TreeNode>,
                   rank': seq<real>)
    requires Shape(nodes, root, t, rank) && |nodes| <= |nodes'| == |rank'| && nodes'[..|nodes|] == nodes
             && rank'[..|nodes|] == rank
    ensures Shape(nodes', root, t, rank') && Leaves(nodes', t) == Leaves(nodes, t)
    ensures Boxed(nodes, t, NULL) ==> Boxed(nodes', t, NULL)
  {
    assert forall i :: 0 <= i < |nodes| ==> nodes'[i] == nodes'[..|nodes|][i] && rank'[i] == rank'[..|nodes|][i];
    forall n | n in t ensures ShapeAt(nodes', root, t, rank', n) { assert ShapeAt(nodes, root, t, rank, n); }
    if Boxed(nodes, t, NULL) {
      forall n | n in t && n != NULL ensures BoxedAt(nodes', n) {
        assert ShapeAt(nodes, root, t, rank, n) && BoxedAt(nodes, n);
      }
    }
  }

  // The tree only looks at its own nodes.
  lemma ShapeStays(nodes: seq<TreeNode>, root: int, t: set<int>, rank: seq<real>, nodes': seq<TreeNode>)
    requires Shape(nodes, root, t, rank) && |nodes'| == |nodes|
             && forall i :: i in t ==> 0 <= i < |nodes| && nodes'[i] == nodes[i]
    ensures Shape(nodes', root, t, rank) && Leaves(nodes', t) == Leaves(nodes, t)
    ensures Boxed(nodes, t, NULL) ==> Boxed(nodes', t, NULL)
  {
    forall n | n in t ensures ShapeAt(nodes', root, t, rank, n) { assert ShapeAt(nodes, root, t, rank, n); }
    if Boxed(nodes, t, NULL) {
      forall n | n in t && n != NULL ensures BoxedAt(nodes', n) {
        assert ShapeAt(nodes, root, t, rank, n) && BoxedAt(nodes, n);
      }
    }
  }

  // ---------- height and search ----------

  ghost function Height(nodes: seq<TreeNode>, root: int, t: set<int>, rank: seq<real>, n: int): (h: nat)
    requires Shape(nodes, root, t, rank) && (n == NULL || n in t)
    ensures n == NULL ==> h == 0
    decreases n != NULL, Below(t, rank, n)
  {
    if n == NULL then 0
    else
      Children(nodes, root, t, rank, n);
      var h1 := Height(nodes, root, t, rank, nodes[n].child1);
      var h2 := Height(nodes, root, t, rank, nodes[n].child2);
      1 + if h1 > h2 then h1 else h2
  }

  lemma Children(nodes: seq<TreeNode>, root: int, t: set<int>, rank: seq<real>, n: int)
    requires Shape(nodes, root, t, rank) && n in t && n != NULL
    ensures 0 <= n < |nodes| == |rank| && (IsLeaf(nodes[n]) ==> nodes[n].child2 == NULL)
    ensures forall c :: HasChild(nodes[n], c) && c != NULL ==>
              c in t && 0 <= c < |nodes| && nodes[c].link == n && c != root && c != n
                && Below(t, rank, c) < Below(t, rank, n)
    ensures !IsLeaf(nodes[n]) ==>
              nodes[n].child1 != NULL && nodes[n].child2 != NULL && nodes[n].child1 != nodes[n].child2
  {
    assert ShapeAt(nodes, root, t, rank, n);
    forall c | HasChild(nodes[n], c) && c != NULL
      ensures c in t && 0 <= c < |nodes| && nodes[c].link == n && c != root && c != n
              && Below(t, rank, c) < Below(t, rank, n)
    {
      assert ShapeAt(nodes, root, t, rank, c);
      Lower(t, rank, n, c);
    }
  }

  // A search with an explicit stack: done are the nodes taken from it.
  ghost predicate Searching(nodes: seq<TreeNode>, root: int, t: set<int>, box: AABB, stack: seq<int>, done: set<int>,
                            hits: seq<int>, whole: bool) {
    && (forall n :: n in t ==> 0 <= n < |nodes|)
    && Stacked(nodes, root, t, stack, done) && Reported(nodes, t, box, done, hits)
    && (whole ==> Complete(nodes, t, box, stack, done, hits))
  }

  // No node is pushed twice, and only when its parent is taken.
  ghost predicate Stacked(nodes: seq<TreeNode>, root: int, t: set<int>, stack: seq<int>, done: set<int>) {
    && done <= t && (forall n :: n in stack ==> n in t && n !in done)
    && (forall i, j :: 0 <= i < j < |stack| ==> stack[i] != stack[j])
    && (root in t ==> root in done || root in stack)
    && (forall n :: (n in done || n in stack) && 0 <= n < |nodes| && n != root ==> nodes[n].link in done)
  }

  ghost predicate Reported(nodes: seq<TreeNode>, t: set<int>, box: AABB, done: set<int>, hits: seq<int>) {
    && (forall h :: h in hits ==>
      h in done && h in t && 0 <= h < |nodes| && IsLeaf(nodes[h]) && Overlap(nodes[h].aabb, box))
    && (forall i, j :: 0 <= i < j < |hits| ==> hits[i] != hits[j])
  }

  ghost predicate Complete(nodes: seq<TreeNode>, t: set<int>, box: AABB, stack: seq<int>, done: set<int>,
                           hits: seq<int>) {
    forall n :: n in done && 0 <= n < |nodes| && Overlap(nodes[n].aabb, box) ==> Searched(nodes, n, stack, done, hits)
  }

  // An overlapping node was reported, or its children were pushed.
  ghost predicate Searched(nodes: seq<TreeNode>, n: int, stack: seq<int>, done: set<int>, hits: seq<int>)
    requires 0 <= n < |nodes|
  {
    if IsLeaf(nodes[n]) then n in hits
    else (nodes[n].child1 in done || nodes[n].child1 in stack) && (nodes[n].child2 in done || nodes[n].child2 in stack)
  }

  // When the stack is empty, every overlapping node has been reached.
  lemma {:induction false} AllReached(nodes: seq<TreeNode>, root: int, t: set<int>, rank: seq<real>, box: AABB,
                                      done: set<int>, hits: seq<int>, n: int)
    requires Shape(nodes, root, t, rank) && Boxed(nodes, t, NULL)
             && Searching(nodes, root, t, box, [], done, hits, true)
    requires n in t && 0 <= n < |nodes| && Overlap(nodes[n].aabb, box)
    ensures n in done
    decreases Above(t, rank, n)
  {
    assert ShapeAt(nodes, root, t, rank, n);
    if n != root {
      var p := nodes[n].link;
      assert ShapeAt(nodes, root, t, rank, p) && BoxedAt(nodes, p);
      Lower(t, rank, p, n);
      OverlapGrows(nodes[p].aabb, nodes[n].aabb, box);
      AllReached(nodes, root, t, rank, box, done, hits, p);
      assert Searched(nodes, p, [], done, hits);
    }
  }
}
