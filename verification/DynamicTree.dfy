// The dynamic tree of boxes: leaves are proxies, and the box of every other
// node contains those of its children.
module DynamicTree {
  import opened Boxes
  import opened TreeShape

  const EXTENSION := 0.1
  const MULTIPLIER := 2.0

  const BLANK := TreeNode(AABB(Vec2(0.0, 0.0), Vec2(0.0, 0.0)), 0, 0, 0, 0)

  class Tree {
    var root: int
    var nodes: seq<TreeNode>
    var nodeCount: int
    var freeList: int
    var path: bv32
    var insertionCount: nat
    ghost var t: set<int>
    ghost var rank: seq<real>
    ghost var free: seq<int>

    // The tree while the nodes of d are in use outside it.
    ghost predicate ValidBut(d: set<int>)
      reads this
    {
      Shape(nodes, root, t, rank) && Boxed(nodes, t, NULL) && Pool(nodes, freeList, free, t, d, nodeCount)
        && Full(nodes, t)
    }

    ghost predicate Valid()
      reads this
    {
      ValidBut({})
    }

    // The live proxies with their fat boxes and user data.
    ghost function Proxies(): map<int, (AABB, int)>
      reads this`nodes, this`t
    {
      Leaves(nodes, t)
    }

    // ---------- the pool ----------

    method AllocateNode(ghost d: set<int>) returns (id: int)
      requires ValidBut(d)
      modifies this`nodes, this`nodeCount, this`freeList, this`free, this`rank
      ensures 0 <= id < |nodes| && id !in t && id !in d && ValidBut(d + {id})
      ensures nodes[id].link == nodes[id].child1 == nodes[id].child2 == NULL
      ensures |nodes| >= |old(nodes)| && forall i :: 0 <= i < |old(nodes)| && i != id ==> nodes[i] == old(nodes)[i]
      ensures |rank| >= |old(rank)| && rank[..|old(rank)|] == old(rank)
      ensures Proxies() == old(Proxies())
    {
      hide Shape, Boxed, Pool, Leaves, Full;
      if freeList == NULL {
        GrowPool(d);
      }
      SomeFree(nodes, freeList, free, t, d, nodeCount);
      ghost var ns := nodes;
      id := freeList;
      freeList := nodes[id].link;
      nodes := nodes[id := nodes[id].(link := NULL, child1 := NULL, child2 := NULL)];
      TakeFree(ns, id, free, t, d, nodeCount, nodes);
      free := free[1..];
      nodeCount := nodeCount + 1;
      InRange(ns, root, t, rank);
      ShapeStays(ns, root, t, rank, nodes);
      FullStays(ns, nodes, t);
    }

    // Doubles the pool when all nodes are in use.
    method GrowPool(ghost d: set<int>)
      requires ValidBut(d) && freeList == NULL
      modifies this`nodes, this`freeList, this`free, this`rank
      ensures ValidBut(d) && freeList != NULL
      ensures |nodes| >= |old(nodes)| && nodes[..|old(nodes)|] == old(nodes)
      ensures |rank| >= |old(rank)| && rank[..|old(rank)|] == old(rank)
      ensures Proxies() == old(Proxies())
    {
      hide Shape, Boxed, Leaves, Full;
      ghost var ns := nodes;
      NoneFree(nodes, freeList, free, t, d, nodeCount);
      var capacity := 2 * |nodes|;
      nodes := nodes + seq(|nodes|, _ => BLANK);
      var i := nodeCount;
      while i < capacity - 1
        invariant |ns| <= i <= capacity - 1 && |nodes| == capacity == 2 * |ns| && nodes[..|ns|] == ns
        invariant forall j :: |ns| <= j < i ==> nodes[j].link == j + 1
        invariant freeList == old(freeList) && free == old(free) && rank == old(rank)
      {
        nodes := nodes[i := nodes[i].(link := i + 1)];
        i := i + 1;
      }
      nodes := nodes[capacity - 1 := nodes[capacity - 1].(link := NULL)];
      PoolGrown(ns, freeList, t, d, nodeCount, nodes);
      freeList := nodeCount;
      free := seq(|ns|, j => |ns| + j);
      ShapeBasics(ns, root, t, rank);
      ShapeGrown(ns, root, t, rank, nodes, rank + seq(|ns|, _ => 0.0));
      FullGrown(ns, root, t, rank, nodes);
      rank := rank + seq(|ns|, _ => 0.0);
    }

    method FreeNode(id: int, ghost d: set<int>)
      requires ValidBut(d) && id in d && 0 <= id < |nodes|
      modifies this`nodes, this`nodeCount, this`freeList, this`free
      ensures ValidBut(d - {id}) && |nodes| == |old(nodes)|
      ensures forall i :: 0 <= i < |nodes| && i != id ==> nodes[i] == old(nodes)[i]
      ensures Proxies() == old(Proxies())
    {
      hide Shape, Boxed, Pool, Leaves, Full;
      ghost var ns := nodes;
      Outside(nodes, freeList, free, t, d, nodeCount);
      InRange(nodes, root, t, rank);
      nodes := nodes[id := nodes[id].(link := freeList)];
      PutFree(ns, freeList, free, t, d, nodeCount, id, nodes);
      ShapeStays(ns, root, t, rank, nodes);
      FullStays(ns, nodes, t);
      free := [id] + free;
      freeList := id;
      nodeCount := nodeCount - 1;
    }

    // ---------- insertion and removal ----------

    // Enlarges the boxes of the ancestors of node2, from node1 on, until one is large enough.
    method EnlargeAncestors(node1: int, node2: int)
      requires node1 in t && 0 <= node1 < |nodes| && 0 <= node2 < |nodes| && HasChild(nodes[node1], node2) && node2 in t
      requires Shape(nodes, root, t, rank) && Boxed(nodes, t, node1) && EnclosesOther(nodes, node1, node2)
      modifies this`nodes
      ensures Shape(nodes, root, t, rank) && Boxed(nodes, t, NULL) && Leaves(nodes, t) == Leaves(old(nodes), t)
      ensures |nodes| == |old(nodes)| && forall i :: 0 <= i < |nodes| && i !in t ==> nodes[i] == old(nodes)[i]
    {
      hide Shape, ShapeAt, Boxed, BoxedAt, Leaves, EnclosesOther;
      ShapeBasics(nodes, root, t, rank);
      var n1, n2 := node1, node2;
      while n1 != NULL
        invariant n1 != NULL ==> n1 in t && 0 <= n1 < |nodes| && 0 <= n2 < |nodes| && HasChild(nodes[n1], n2)
                                 && EnclosesOther(nodes, n1, n2)
        invariant Shape(nodes, root, t, rank) && Boxed(nodes, t, n1) && |nodes| == |old(nodes)| == |rank|
        invariant Leaves(nodes, t) == Leaves(old(nodes), t)
        invariant forall i :: 0 <= i < |nodes| && i !in t ==> nodes[i] == old(nodes)[i]
        decreases n1 != NULL, if n1 == NULL then {} else Above(t, rank, n1)
      {
        ShapeHolds(nodes, root, t, rank, n1);
        BranchNode(nodes, root, t, rank, n1, n2);
        if Contains(nodes[n1].aabb, nodes[n2].aabb) {
          LargeEnough(nodes, root, t, rank, n1, n2);
          break;
        }
        ghost var ns := nodes;
        ReboxUp(nodes, root, t, rank, n1);
        ParentOf(nodes, root, t, rank, n1);
        var box := Combine(nodes[nodes[n1].child1].aabb, nodes[nodes[n1].child2].aabb);
        ReboxShape(nodes, root, t, rank, n1, box);
        nodes := nodes[n1 := nodes[n1].(aabb := box)];
        n2 := n1;
        n1 := nodes[n1].link;
        if n1 != NULL { OtherEnclosed(ns, root, t, rank, n1, n2, box); }
      }
    }

    // Descends to a leaf, at each node to the child with the nearer center.
    method FindSibling(center: Vec2) returns (sibling: int, ghost way: seq<int>)
      requires Shape(nodes, root, t, rank) && root != NULL
      ensures sibling in t && 0 <= sibling < |nodes| && IsLeaf(nodes[sibling])
      ensures way != [] && way[0] == root && way[|way| - 1] == sibling
      ensures forall i :: 0 <= i < |way| - 1 ==> Nearer(nodes, center, way[i], way[i + 1])
    {
      hide Shape, Below;
      sibling := root;
      way := [root];
      ShapeBasics(nodes, root, t, rank);
      ShapeHolds(nodes, root, t, rank, root);
      while !IsLeaf(nodes[sibling])
        invariant sibling in t && 0 <= sibling < |nodes|
        invariant way != [] && way[0] == root && way[|way| - 1] == sibling
        invariant forall i :: 0 <= i < |way| - 1 ==> Nearer(nodes, center, way[i], way[i + 1])
        decreases Below(t, rank, sibling)
      {
        var child1, child2 := nodes[sibling].child1, nodes[sibling].child2;
        Children(nodes, root, t, rank, sibling);
        assert HasChild(nodes[sibling], child1) && HasChild(nodes[sibling], child2);
        var norm1, norm2 := Distance(Center(nodes[child1].aabb), center), Distance(Center(nodes[child2].aabb), center);
        sibling := if norm1 < norm2 then child1 else child2;
        way := way + [sibling];
      }
    }

    method InsertLeaf(leaf: int)
      requires ValidBut({leaf}) && 0 <= leaf < |nodes| && IsLeaf(nodes[leaf]) && nodes[leaf].child2 == NULL
      modifies this
      ensures Valid() && Proxies() == old(Proxies())[leaf := old((nodes[leaf].aabb, nodes[leaf].userData))]
    {
      hide Shape, Boxed, Pool, Leaves, Full, EnclosesOther;
      insertionCount := insertionCount + 1;
      Outside(nodes, freeList, free, t, {leaf}, nodeCount);
      ShapeBasics(nodes, root, t, rank);
      if root == NULL {
        ghost var ns := nodes;
        root := leaf;
        nodes := nodes[leaf := nodes[leaf].(link := NULL)];
        t := {leaf};
        OnlyLeaf(ns, rank, leaf, nodes);
        PoolStays(ns, freeList, free, {}, {leaf}, nodeCount, nodes, {leaf}, {});
        return;
      }
      var sibling, _ := FindSibling(Center(nodes[leaf].aabb));
      var node1, node2 := InsertBeside(leaf, sibling);
      if node1 != NULL {
        ghost var linked := nodes;
        EnlargeAncestors(node1, node2);
        PoolStays(linked, freeList, free, t, {}, nodeCount, nodes, t, {});
        FullStays(linked, nodes, t);
      }
    }

    // Puts a new parent in the place of the sibling, with the sibling and the leaf as children.
    method InsertBeside(leaf: int, sibling: int) returns (node1: int, node2: int)
      requires ValidBut({leaf}) && 0 <= leaf < |nodes| && IsLeaf(nodes[leaf]) && nodes[leaf].child2 == NULL
      requires sibling in t && 0 <= sibling < |nodes| && IsLeaf(nodes[sibling])
      modifies this
      ensures Shape(nodes, root, t, rank) && Boxed(nodes, t, node1) && Pool(nodes, freeList, free, t, {}, nodeCount)
              && Full(nodes, t)
      ensures Proxies() == old(Proxies())[leaf := old((nodes[leaf].aabb, nodes[leaf].userData))]
      ensures node2 in t && 0 <= node2 < |nodes|
      ensures node1 != NULL ==>
                node1 in t && 0 <= node1 < |nodes| && HasChild(nodes[node1], node2)
                  && EnclosesOther(nodes, node1, node2)
    {
      hide Shape, Boxed, Pool, Leaves, Full, Linked, EnclosesOther, RankLinked, WithChild, Combine;
      Outside(nodes, freeList, free, t, {leaf}, nodeCount);
      node1 := nodes[sibling].link;
      SiblingParent(nodes, root, t, rank, sibling);
      node2 := AllocateNode({leaf});
      LinkIn(leaf, sibling, node1, node2);
    }

    method LinkIn(leaf: int, sibling: int, node1: int, node2: int)
      requires 0 <= leaf < |nodes| && 0 <= node2 < |nodes|
      requires ValidBut({leaf} + {node2}) && leaf != node2 && IsLeaf(nodes[leaf]) && nodes[leaf].child2 == NULL
      requires sibling in t && 0 <= sibling < |nodes| && IsLeaf(nodes[sibling]) && node1 == nodes[sibling].link
      modifies this
      ensures Shape(nodes, root, t, rank) && Boxed(nodes, t, node1) && Pool(nodes, freeList, free, t, {}, nodeCount)
              && Full(nodes, t)
      ensures Proxies() == old(Proxies())[leaf := old((nodes[leaf].aabb, nodes[leaf].userData))]
      ensures node2 in t && 0 <= node2 < |nodes|
      ensures node1 != NULL ==>
                node1 in t && 0 <= node1 < |nodes| && HasChild(nodes[node1], node2)
                  && EnclosesOther(nodes, node1, node2)
    {
      hide Shape, Boxed, Pool, Leaves, Full, Linked, EnclosesOther, RankLinked, WithChild, Combine, IsLeaf, HasChild;
      Outside(nodes, freeList, free, t, {leaf} + {node2}, nodeCount);
      SiblingParent(nodes, root, t, rank, sibling);
      ghost var ns, t0, root0, rank0 := nodes, t, root, rank;
      LinkNodes(leaf, sibling, node1, node2);
      if node1 == NULL { root := node2; }
      ShapeBasics(ns, root0, t0, rank0);
      t, rank := t + {leaf, node2}, RankLinked(ns, rank, sibling, leaf, node2);
      LinkedWhole(ns, root0, t0, rank0, sibling, leaf, node2);
    }

    // The tree after linking.
    lemma LinkedWhole(ns: seq<TreeNode>, root0: int, t0: set<int>, rank0: seq<real>, sibling: int, leaf: int,
                      node2: int)
      requires Shape(ns, root0, t0, rank0) && Boxed(ns, t0, NULL) && Full(ns, t0)
      requires Pool(ns, freeList, free, t0, {leaf} + {node2}, nodeCount)
      requires sibling in t0 && leaf !in t0 && node2 !in t0 && leaf != node2 && 0 <= sibling < |ns|
               && IsLeaf(ns[sibling])
      requires 0 <= leaf < |ns| && IsLeaf(ns[leaf]) && ns[leaf].child2 == NULL && 0 <= node2 < |ns|
      requires Linked(ns, sibling, leaf, node2, nodes) && nodes[node2].aabb == Combine(ns[leaf].aabb, ns[sibling].aabb)
      requires (ns[sibling].link == NULL || ns[sibling].link in t0) && |nodes| == |ns|
      requires root == (if sibling == root0 then node2 else root0)
      requires t == t0 + {leaf, node2} && rank == RankLinked(ns, rank0, sibling, leaf, node2)
      ensures Shape(nodes, root, t, rank) && Boxed(nodes, t, ns[sibling].link) && Full(nodes, t)
      ensures Pool(nodes, freeList, free, t, {}, nodeCount)
      ensures Proxies() == Leaves(ns, t0)[leaf := (ns[leaf].aabb, ns[leaf].userData)]
      ensures var node1 := ns[sibling].link;
              node1 != NULL ==>
                node1 in t && 0 <= node1 < |nodes| && HasChild(nodes[node1], node2)
                  && EnclosesOther(nodes, node1, node2)
    {
      hide Shape, Boxed, Pool, Leaves, Full, Linked, EnclosesOther, RankLinked, WithChild, Combine, IsLeaf, HasChild;
      LinkShape(ns, root0, t0, rank0, sibling, leaf, node2, nodes);
      LinkBoxed(ns, root0, t0, rank0, sibling, leaf, node2, nodes);
      LinkedOnly(ns, sibling, leaf, node2, nodes, t0);
      PoolStays(ns, freeList, free, t0, {leaf} + {node2}, nodeCount, nodes, t, {});
      FullLinked(ns, t0, leaf, node2, nodes, (ns[leaf].aabb, ns[leaf].userData));
    }

    method LinkNodes(leaf: int, sibling: int, node1: int, node2: int)
      requires 0 <= sibling < |nodes| && 0 <= leaf < |nodes| && 0 <= node2 < |nodes|
      requires sibling != leaf && leaf != node2 && sibling != node2 && node1 == nodes[sibling].link
      requires node1 == NULL || (0 <= node1 < |nodes| && node1 != sibling && node1 != leaf && node1 != node2)
      modifies this`nodes
      ensures Linked(old(nodes), sibling, leaf, node2, nodes)
      ensures nodes[node2].aabb == Combine(old(nodes)[leaf].aabb, old(nodes)[sibling].aabb)
    {
      nodes := nodes[node2 := nodes[node2].(link := node1, userData := 0,
        aabb := Combine(nodes[leaf].aabb, nodes[sibling].aabb))];
      if node1 != NULL {
        nodes := nodes[node1 := WithChild(nodes[node1], sibling, node2)];
      }
      nodes := nodes[node2 := nodes[node2].(child1 := sibling, child2 := leaf)];
      nodes := nodes[sibling := nodes[sibling].(link := node2)];
      nodes := nodes[leaf := nodes[leaf].(link := node2)];
    }

    // Shrinks the boxes of the ancestors from start on to what their children need.
    method ShrinkAncestors(start: int)
      requires Shape(nodes, root, t, rank) && Boxed(nodes, t, NULL)
               && (start != NULL ==> start in t && 0 <= start < |nodes| && !IsLeaf(nodes[start]))
      modifies this`nodes
      ensures Shape(nodes, root, t, rank) && Boxed(nodes, t, NULL) && Leaves(nodes, t) == Leaves(old(nodes), t)
      ensures |nodes| == |old(nodes)| && forall i :: 0 <= i < |nodes| && i !in t ==> nodes[i] == old(nodes)[i]
    {
      hide Shape, ShapeAt, Boxed, Leaves;
      var node1 := start;
      ShapeBasics(nodes, root, t, rank);
      while node1 != NULL
        invariant node1 != NULL ==> node1 in t && 0 <= node1 < |nodes| && !IsLeaf(nodes[node1])
        invariant Shape(nodes, root, t, rank) && Boxed(nodes, t, NULL) && |nodes| == |old(nodes)| == |rank|
        invariant Leaves(nodes, t) == Leaves(old(nodes), t)
        invariant forall i :: 0 <= i < |nodes| && i !in t ==> nodes[i] == old(nodes)[i]
        decreases node1 != NULL, if node1 == NULL then {} else Above(t, rank, node1)
      {
        var oldAABB := nodes[node1].aabb;
        ghost var ns := nodes;
        ShrinkKeeps(nodes, root, t, rank, node1);
        ParentOf(nodes, root, t, rank, node1);
        var box := Combine(nodes[nodes[node1].child1].aabb, nodes[nodes[node1].child2].aabb);
        nodes := nodes[node1 := nodes[node1].(aabb := box)];
        if Contains(oldAABB, nodes[node1].aabb) {
          break;
        }
        node1 := nodes[node1].link;
        if node1 != NULL { ParentIsBranch(nodes, root, t, rank, node1); }
      }
    }

    // Takes a leaf and its parent out; the sibling moves up.
    method RemoveLeaf(leaf: int)
      requires Valid() && leaf in Proxies()
      modifies this
      ensures ValidBut({leaf}) && |nodes| == |old(nodes)| && 0 <= leaf < |nodes|
      ensures nodes[leaf] == old(nodes)[leaf] && IsLeaf(nodes[leaf]) && nodes[leaf].child2 == NULL
      ensures Proxies() == old(Proxies()) - {leaf}
    {
      hide Shape, Boxed, Pool, Full, Unlinked;
      LeafFacts(nodes, root, t, rank, leaf);
      if leaf == root {
        LastLeaf(nodes, root, t, rank);
        ShapeBasics(nodes, root, t, rank);
        root := NULL;
        ghost var t0 := t;
        t := {};
        NothingLeft(nodes, rank);
        PoolStays(nodes, freeList, free, t0, {}, nodeCount, nodes, {}, {leaf});
        return;
      }
      var node1 := Unlink(leaf);
      if node1 != NULL {
        ghost var ns := nodes;
        ShrinkAncestors(node1);
        PoolStays(ns, freeList, free, t, {leaf}, nodeCount, nodes, t, {leaf});
        FullStays(ns, nodes, t);
      }
    }

    method Unlink(leaf: int) returns (node1: int)
      requires Valid() && leaf in Proxies() && leaf in t && leaf != root && 0 <= leaf < |nodes| && IsLeaf(nodes[leaf])
      modifies this
      ensures ValidBut({leaf}) && |nodes| == |old(nodes)| && nodes[leaf] == old(nodes)[leaf]
      ensures Proxies() == old(Proxies()) - {leaf} && leaf !in t
      ensures node1 != NULL ==> node1 in t && 0 <= node1 < |nodes| && !IsLeaf(nodes[node1])
    {
      hide Shape, Boxed, Pool, Leaves, Full, Unlinked;
      ghost var ns, t0, root0 := nodes, t, root;
      Relatives(nodes, root, t, rank, leaf);
      var node2 := nodes[leaf].link;
      SiblingParent(nodes, root, t, rank, node2);
      Grandparent(nodes, root, t, rank, leaf);
      var sibling := SiblingOf(nodes, leaf);
      node1 := UnlinkNodes(leaf, node2);
      if node1 == NULL { root := sibling; }
      t := t - {leaf, node2};
      UnlinkedWhole(ns, root0, t0, leaf, node2);
      FreeNode(node2, {leaf, node2});
      assert {leaf, node2} - {node2} == {leaf};
    }

    // The tree after unlinking; the leaf and its parent are out of it.
    lemma UnlinkedWhole(ns: seq<TreeNode>, root0: int, t0: set<int>, leaf: int, node2: int)
      requires Shape(ns, root0, t0, rank) && Boxed(ns, t0, NULL) && Full(ns, t0)
               && Pool(ns, freeList, free, t0, {}, nodeCount)
      requires leaf in t0 && leaf != root0 && 0 <= leaf < |ns| && IsLeaf(ns[leaf]) && leaf in Leaves(ns, t0)
      requires node2 == ns[leaf].link && node2 in t0 && leaf != node2 && 0 <= node2 < |ns|
      requires Unlinked(ns, leaf, nodes) && t == t0 - {leaf, node2}
      requires root == if node2 == root0 then SiblingOf(ns, leaf) else root0
      ensures Shape(nodes, root, t, rank) && Boxed(nodes, t, NULL) && Full(nodes, t)
      ensures Pool(nodes, freeList, free, t, {leaf, node2}, nodeCount)
      ensures Proxies() == Leaves(ns, t0) - {leaf} && |nodes| == |ns|
      ensures var node1 := ns[node2].link;
              node1 != NULL ==> node1 in t && node1 != node2 && 0 <= node1 < |nodes| && !IsLeaf(nodes[node1])
    {
      hide Shape, Boxed, Pool, Leaves, Full, Unlinked;
      UnlinkShape(ns, root0, t0, rank, leaf, nodes);
      UnlinkBoxed(ns, root0, t0, rank, leaf, nodes);
      UnlinkedOnly(ns, root0, t0, rank, leaf, nodes);
      PoolStays(ns, freeList, free, t0, {}, nodeCount, nodes, t, {leaf, node2});
      FullUnlinked(ns, t0, leaf, node2, nodes);
    }

    method UnlinkNodes(leaf: int, node2: int) returns (node1: int)
      requires 0 <= leaf < |nodes| && 0 <= node2 < |nodes| && nodes[leaf].link == node2 && leaf != node2
      requires var sibling := SiblingOf(nodes, leaf);
               0 <= sibling < |nodes| && sibling != leaf && sibling != node2 && nodes[sibling].link == node2
      requires nodes[node2].link == NULL || 0 <= nodes[node2].link < |nodes|
      requires nodes[node2].link != node2 && nodes[node2].link != leaf && nodes[node2].link != SiblingOf(nodes, leaf)
      modifies this`nodes
      ensures Unlinked(old(nodes), leaf, nodes) && nodes[leaf] == old(nodes)[leaf] && node1 == old(nodes)[node2].link
    {
      node1 := nodes[node2].link;
      var sibling := SiblingOf(nodes, leaf);
      if node1 != NULL {
        nodes := nodes[node1 := WithChild(nodes[node1], node2, sibling)];
      }
      nodes := nodes[sibling := nodes[sibling].(link := node1)];
    }

    // ---------- proxies ----------

    constructor ()
      ensures Valid() && Proxies() == map[]
    {
      root, nodeCount, freeList, path, insertionCount := NULL, 0, 0, 0, 0;
      nodes := seq(16, i requires 0 <= i < 16 => BLANK.(link := if i < 15 then i + 1 else NULL));
      t, rank, free := {}, seq(16, _ => 0.0), seq(16, i => i);
      new;
      forall i | 0 <= i < 16 ensures i in free && FreeAt(nodes, free, i) { assert free[i] == i; }
    }

    method CreateProxy(aabb: AABB, userData: int) returns (id: int)
      requires Valid()
      modifies this
      ensures Valid() && id !in old(Proxies())
      ensures Proxies() == old(Proxies())[id := (Extended(aabb, EXTENSION), userData)]
    {
      hide Shape, Boxed, Pool, Leaves, Full;
      NotYet(nodes, root, t, rank);
      id := AllocateNode({});
      ghost var ns := nodes;
      nodes := nodes[id := nodes[id].(aabb := Extended(aabb, EXTENSION), userData := userData)];
      Detached(ns, id, nodes);
      assert {} + {id} == {id};
      InsertLeaf(id);
      var tries := 0;
      var height := ComputeHeight();
      while height > 64 && tries < 10
        invariant Valid() && Proxies() == old(Proxies())[id := (Extended(aabb, EXTENSION), userData)]
        decreases 10 - tries
      {
        Rebalance(nodeCount / 16);
        height := ComputeHeight();
        tries := tries + 1;
      }
    }

    // A node outside the tree changed.
    lemma Detached(ns: seq<TreeNode>, id: int, ns': seq<TreeNode>)
      requires nodes == ns' && 0 <= id < |ns| && |ns'| == |ns|
               && (forall i :: 0 <= i < |ns| && i != id ==> ns'[i] == ns[i]) && id !in t
      requires Shape(ns, root, t, rank) && Boxed(ns, t, NULL) && Pool(ns, freeList, free, t, {} + {id}, nodeCount)
               && Full(ns, t)
      ensures ValidBut({id}) && Leaves(nodes, t) == Leaves(ns, t)
    {
      hide Shape, Boxed, Pool, Leaves, Full;
      InRange(ns, root, t, rank);
      ShapeStays(ns, root, t, rank, nodes);
      FullStays(ns, nodes, t);
      assert {} + {id} == {id};
      PoolStays(ns, freeList, free, t, {id}, nodeCount, nodes, t, {id});
    }

    method DestroyProxy(id: int)
      requires Valid() && id in Proxies()
      modifies this
      ensures Valid() && Proxies() == old(Proxies()) - {id}
    {
      hide Shape, Boxed, Pool, Leaves, Full;
      RemoveLeaf(id);
      FreeNode(id, {id});
      assert {id} - {id} == {};
    }

    // A proxy still within its fat box stays; otherwise it gets a new fat box.
    method MoveProxy(id: int, aabb: AABB, displacement: Vec2) returns (moved: bool)
      requires Valid() && id in Proxies()
      modifies this
      ensures Valid() && moved == !Contains(old(Proxies())[id].0, aabb)
      ensures Proxies() == if !moved then old(Proxies())
                           else old(Proxies())[id := (FatBox(aabb, displacement), old(Proxies())[id].1)]
    {
      LeafFacts(nodes, root, t, rank, id);
      if Contains(nodes[id].aabb, aabb) {
        return false;
      }
      hide Shape, Boxed, Pool, Leaves, Full;
      ghost var before := Proxies();
      LeafEntry(nodes, t, id);
      RemoveLeaf(id);
      ghost var ns := nodes;
      Outside(nodes, freeList, free, t, {id}, nodeCount);
      nodes := nodes[id := nodes[id].(aabb := FatBox(aabb, displacement))];
      assert {} + {id} == {id};
      Detached(ns, id, nodes);
      Replaced(before, id, (FatBox(aabb, displacement), before[id].1));
      InsertLeaf(id);
      moved := true;
    }

    // Reinserts leaves, one after the other, chosen by the bits of path.
    method Rebalance(iterations: int)
      requires Valid()
      modifies this
      ensures Valid() && Proxies() == old(Proxies())
    {
      hide Boxed, Pool, Full, Shape, Leaves;
      if root == NULL {
        return;
      }
      var i := 0;
      while i < iterations
        invariant Valid() && Proxies() == old(Proxies()) && root != NULL
        decreases iterations - i
      {
        var node, _ := PickLeaf();
        path := path + 1;
        LeafEntry(nodes, t, node);
        RemoveLeaf(node);
        InsertLeaf(node);
        ShapeBasics(nodes, root, t, rank);
        SomeLeaf(nodes, t, node);
        i := i + 1;
      }
    }

    // Descends from the root, turning at each node as the next bit of path says.
    method PickLeaf() returns (node: int, ghost way: seq<int>)
      requires Shape(nodes, root, t, rank) && root != NULL
      ensures node in t && 0 <= node < |nodes| && IsLeaf(nodes[node])
      ensures way != [] && way[0] == root && way[|way| - 1] == node
      ensures forall i :: 0 <= i < |way| - 1 ==> Turned(nodes, path, i, way[i], way[i + 1])
    {
      hide Shape, Below, PathBit;
      node := root;
      way := [root];
      var bit := 0;
      ShapeBasics(nodes, root, t, rank);
      ShapeHolds(nodes, root, t, rank, root);
      while !IsLeaf(nodes[node])
        invariant node in t && 0 <= node < |nodes|
        invariant way != [] && way[0] == root && way[|way| - 1] == node && bit == (|way| - 1) % 32
        invariant forall i :: 0 <= i < |way| - 1 ==> Turned(nodes, path, i, way[i], way[i + 1])
        decreases Below(t, rank, node)
      {
        Children(nodes, root, t, rank, node);
        node := if PathBit(path, bit) then nodes[node].child2 else nodes[node].child1;
        way := way + [node];
        bit := (bit + 1) % 32;
      }
    }

    lemma ProxyIds()
      ensures forall p :: p in Proxies() ==> 0 <= p < |nodes|
    {
    }

    method GetFatAABB(id: int) returns (box: AABB)
      requires Valid() && id in Proxies()
      ensures box == Proxies()[id].0
    {
      LeafFacts(nodes, root, t, rank, id);
      box := nodes[id].aabb;
    }

    method GetUserData(id: int) returns (userData: int)
      requires Valid() && id in Proxies()
      ensures userData == Proxies()[id].1
    {
      LeafFacts(nodes, root, t, rank, id);
      userData := nodes[id].userData;
    }

    // The nodes of the tree and the free ones make up the pool, and the tree
    // has one inner node less than proxies.
    lemma Conserved()
      requires Valid()
      ensures nodeCount == |t| && |t| + |free| == |nodes|
      ensures t != {} ==> |t| == 2 * |Proxies()| - 1
    {
      hide Indices;
      InRange(nodes, root, t, rank);
      DistinctCount(free);
      var f := set i | i in free;
      assert t !! f && t + f == Indices(|nodes|) by {
        forall i | i in free ensures 0 <= i < |nodes| {
          var k :| 0 <= k < |free| && free[k] == i;
          assert FreeAt(nodes, free, k);
        }
      }
      assert |t + f| == |t| + |f|;
      assert Leaves(nodes, t).Keys == Proxies().Keys;
    }

    // ---------- height and queries ----------

    ghost function TreeHeight(): nat
      requires Valid()
      reads this
    {
      Height(nodes, root, t, rank, root)
    }

    // A tree of up to 128 proxies is never too high for the stack of a query.
    lemma HeightBound()
      requires Valid()
      ensures TreeHeight() <= |Proxies()|
    {
      hide Shape, Boxed, Pool, Height, IsLeaf;
      ShapeBasics(nodes, root, t, rank);
      InRange(nodes, root, t, rank);
      if root != NULL {
        HeightInner(nodes, root, t, rank, root);
        var inner, leaves := Inner(nodes, t, t), Leaves(nodes, t).Keys;
        SubsetSize(InnerFrom(nodes, t, rank, root), inner);
        assert inner !! leaves && t == inner + leaves;
        assert |t| == |inner| + |leaves|;
        assert leaves == Proxies().Keys;
      }
    }

    method ComputeHeight() returns (h: nat)
      requires Valid()
      ensures h == TreeHeight()
    {
      h := ComputeHeightFrom(root);
    }

    method ComputeHeightFrom(n: int) returns (h: nat)
      requires Shape(nodes, root, t, rank) && (n == NULL || n in t)
      ensures h == Height(nodes, root, t, rank, n)
      decreases n != NULL, Below(t, rank, n)
    {
      if n == NULL {
        return 0;
      }
      Children(nodes, root, t, rank, n);
      var h1 := ComputeHeightFrom(nodes[n].child1);
      var h2 := ComputeHeightFrom(nodes[n].child2);
      return 1 + if h1 > h2 then h1 else h2;
    }

    // Reports the proxies whose fat boxes overlap the given box, in the order
    // of the search, until the callback declines one. When the tree is no
    // higher than the stack is deep, none is missed.
    method Query(box: AABB, proceed: int -> bool) returns (hits: seq<int>, all: bool)
      requires Valid()
      ensures forall i, j :: 0 <= i < j < |hits| ==> hits[i] != hits[j]
      ensures forall h :: h in hits ==> h in Proxies() && Overlap(Proxies()[h].0, box)
      ensures forall i :: 0 <= i < |hits| ==> (proceed(hits[i]) <==> all || i < |hits| - 1)
      ensures !all ==> hits != []
      ensures all && TreeHeight() <= STACK_SIZE ==>
                forall p :: p in Proxies() && Overlap(Proxies()[p].0, box) ==> p in hits
    {
      hide Valid, Shape, Searching, Seeking, Height, TreeHeight, Leaves, Overlap;
      var stack := new int[STACK_SIZE];
      ghost var done: set<int> := {};
      ghost var whole := true;
      var count := 1;
      stack[0] := root;
      hits := [];
      SeekStarts(box);
      assert stack[..1] == [root];
      while count > 0
        invariant 0 <= count <= STACK_SIZE && fresh(stack)
        invariant Seeking(box, stack[..count], done, hits, whole)
        invariant forall i :: 0 <= i < |hits| ==> proceed(hits[i])
        decreases t - done, count
      {
        count := count - 1;
        var nodeId := stack[count];
        ghost var below, done0, whole0 := stack[..count], done, whole;
        assert stack[..count + 1] == below + [nodeId];
        SeekTop(box, below, nodeId, done, hits, whole);
        if nodeId == NULL {
          continue;
        }
        done := done + {nodeId};
        if Overlap(nodes[nodeId].aabb, box) {
          if IsLeaf(nodes[nodeId]) {
            SeekHit(box, below, nodeId, done0, hits, whole);
            hits := hits + [nodeId];
            if !proceed(nodeId) {
              SeekHits(box, below, done, hits, whole);
              return hits, false;
            }
          } else {
            var child1, child2 := nodes[nodeId].child1, nodes[nodeId].child2;
            if count < STACK_SIZE {
              stack[count] := child1;
              count := count + 1;
            }
            if count < STACK_SIZE {
              stack[count] := child2;
              count := count + 1;
            } else {
              whole := false;
            }
            SeekPush(box, below, nodeId, done0, hits, whole0, stack[..count], whole);
          }
        } else {
          SeekMiss(box, below, nodeId, done0, hits, whole);
        }
      }
      SeekHits(box, [], done, hits, whole);
      SeekEnds(box, done, hits, whole);
      all := true;
    }

    // The state of a search: an empty tree has nothing to report, and in
    // another one the nodes on the stack are lower than those below them.
    ghost predicate Seeking(box: AABB, stack: seq<int>, done: set<int>, hits: seq<int>, whole: bool)
      requires Valid()
      reads this
    {
      && (root == NULL ==> done == {} && hits == [] && forall i :: 0 <= i < |stack| ==> stack[i] == NULL)
      && (root != NULL ==> Searching(nodes, root, t, box, stack, done, hits, whole))
      && (root != NULL ==> forall i :: 0 <= i < |stack| ==>
            stack[i] in t && i + Height(nodes, root, t, rank, stack[i]) <= Height(nodes, root, t, rank, root))
      && (Height(nodes, root, t, rank, root) <= STACK_SIZE ==> whole)
    }

    lemma SeekStarts(box: AABB)
      requires Valid()
      ensures Seeking(box, [root], {}, [], true)
    {
      hide Height;
      ShapeBasics(nodes, root, t, rank);
      SearchStarts(nodes, root, t, rank, box);
    }

    lemma SeekTop(box: AABB, stack: seq<int>, n: int, done: set<int>, hits: seq<int>, whole: bool)
      requires Valid() && Seeking(box, stack + [n], done, hits, whole)
      ensures n != NULL ==> n in t && 0 <= n < |nodes| && n !in done && done <= t
      ensures n == NULL ==> Seeking(box, stack, done, hits, whole)
    {
      hide Height;
      assert (stack + [n])[|stack|] == n;
      InRange(nodes, root, t, rank);
      if root != NULL { SearchTop(nodes, root, t, box, stack, n, done, hits, whole); }
      forall i | 0 <= i < |stack| ensures (stack + [n])[i] == stack[i] {}
    }

    lemma SeekMiss(box: AABB, stack: seq<int>, n: int, done: set<int>, hits: seq<int>, whole: bool)
      requires Valid() && Seeking(box, stack + [n], done, hits, whole) && n in t && 0 <= n < |nodes|
               && !Overlap(nodes[n].aabb, box)
      ensures Seeking(box, stack, done + {n}, hits, whole)
    {
      hide Height, Searching, Overlap;
      ShapeBasics(nodes, root, t, rank);
      SearchMiss(nodes, root, t, box, stack, n, done, hits, whole);
      forall i | 0 <= i < |stack| ensures (stack + [n])[i] == stack[i] {}
    }

    lemma SeekHit(box: AABB, stack: seq<int>, n: int, done: set<int>, hits: seq<int>, whole: bool)
      requires Valid() && Seeking(box, stack + [n], done, hits, whole) && n in t && 0 <= n < |nodes|
      requires IsLeaf(nodes[n]) && Overlap(nodes[n].aabb, box)
      ensures Seeking(box, stack, done + {n}, hits + [n], whole)
    {
      hide Height, Searching, Overlap;
      ShapeBasics(nodes, root, t, rank);
      SearchHit(nodes, root, t, box, stack, n, done, hits, whole);
      forall i | 0 <= i < |stack| ensures (stack + [n])[i] == stack[i] {}
    }

    lemma SeekPush(box: AABB, stack: seq<int>, n: int, done: set<int>, hits: seq<int>, before: bool, stack': seq<int>,
                   whole: bool)
      requires Valid() && Seeking(box, stack + [n], done, hits, before) && n in t && 0 <= n < |nodes|
               && !IsLeaf(nodes[n])
      requires if |stack| + 1 < STACK_SIZE then whole == before && stack' == stack + [nodes[n].child1, nodes[n].child2]
               else |stack| + 1 == STACK_SIZE && !whole && stack' == stack + [nodes[n].child1]
      ensures Seeking(box, stack', done + {n}, hits, whole)
    {
      hide Height, Searching, Overlap, Shape, Boxed, Full, Proxies;
      ShapeBasics(nodes, root, t, rank);
      HeightOf(nodes, root, t, rank, n);
      SearchPush(nodes, root, t, rank, box, stack, n, done, hits, before, stack', whole);
      assert (stack + [n])[|stack|] == n;
      forall i | 0 <= i < |stack| ensures (stack + [n])[i] == stack[i] == stack'[i] {}
    }

    lemma SeekHits(box: AABB, stack: seq<int>, done: set<int>, hits: seq<int>, whole: bool)
      requires Valid() && Seeking(box, stack, done, hits, whole)
      ensures forall i, j :: 0 <= i < j < |hits| ==> hits[i] != hits[j]
      ensures forall h :: h in hits ==> h in Proxies() && Overlap(Proxies()[h].0, box)
    {
      hide Height, Overlap, Shape;
      if root != NULL { SearchHits(nodes, root, t, box, stack, done, hits, whole); }
    }

    lemma SeekEnds(box: AABB, done: set<int>, hits: seq<int>, whole: bool)
      requires Valid() && Seeking(box, [], done, hits, whole)
      ensures TreeHeight() <= STACK_SIZE ==> forall p :: p in Proxies() && Overlap(Proxies()[p].0, box) ==> p in hits
    {
      hide Height, Overlap;
      SearchStarts(nodes, root, t, rank, box);
      if root != NULL && whole { SearchEnds(nodes, root, t, rank, box, done, hits); }
    }
  }

  ghost function Inner(nodes: seq<TreeNode>, t: set<int>, s: set<int>): set<int> {
    set n | n in s && n in t && 0 <= n < |nodes| && !IsLeaf(nodes[n])
  }

  // The inner nodes that n and the nodes of lower rank make up.
  ghost function InnerFrom(nodes: seq<TreeNode>, t: set<int>, rank: seq<real>, n: int): set<int> {
    Inner(nodes, t, Below(t, rank, n) + {n})
  }

  lemma SubsetSize(a: set<int>, b: set<int>)
    requires a <= b
    ensures |a| <= |b|
  {
    assert b == a + (b - a);
  }

  lemma {:induction false} HeightInner(nodes: seq<TreeNode>, root: int, t: set<int>, rank: seq<real>, n: int)
    requires Shape(nodes, root, t, rank) && n in t && n != NULL
    ensures Height(nodes, root, t, rank, n) <= |InnerFrom(nodes, t, rank, n)| + 1
    decreases Below(t, rank, n), 0
  {
    Children(nodes, root, t, rank, n);
    assert ShapeAt(nodes, root, t, rank, n);
    hide Shape, ShapeAt, InnerFrom;
    if !IsLeaf(nodes[n]) {
      HeightChild(nodes, root, t, rank, n, nodes[n].child1);
      HeightChild(nodes, root, t, rank, n, nodes[n].child2);
    }
  }

  lemma {:induction false} HeightChild(nodes: seq<TreeNode>, root: int, t: set<int>, rank: seq<real>, n: int, c: int)
    requires Shape(nodes, root, t, rank) && n in t && 0 <= n < |nodes| && HasChild(nodes[n], c) && !IsLeaf(nodes[n])
    requires c in t && c != NULL && Below(t, rank, c) < Below(t, rank, n)
    ensures Height(nodes, root, t, rank, c) <= |InnerFrom(nodes, t, rank, n)|
    decreases Below(t, rank, c), 1
  {
    hide Height;
    assert c in Below(t, rank, n) by { assert ShapeAt(nodes, root, t, rank, n) && ShapeAt(nodes, root, t, rank, c); }
    hide Shape, IsLeaf;
    HeightInner(nodes, root, t, rank, c);
    var a, b := InnerFrom(nodes, t, rank, c), InnerFrom(nodes, t, rank, n);
    assert n !in Below(t, rank, n) && n !in a && n in b;
    assert a <= b - {n};
    SubsetSize(a, b - {n});
  }

  const STACK_SIZE := 128

  // ---------- the steps of a search ----------

  lemma SearchStarts(nodes: seq<TreeNode>, root: int, t: set<int>, rank: seq<real>, box: AABB)
    requires Shape(nodes, root, t, rank)
    ensures root != NULL ==> Searching(nodes, root, t, box, [root], {}, [], true)
    ensures root == NULL ==> Leaves(nodes, t) == map[]
  {
    InRange(nodes, root, t, rank);
  }

  lemma OnTop(stack: seq<int>, n: int)
    ensures forall x :: x in stack + [n] <==> x in stack || x == n
  {
  }

  // The node on top of the stack is taken for the first time.
  lemma SearchTop(nodes: seq<TreeNode>, root: int, t: set<int>, box: AABB, stack: seq<int>, n: int, done: set<int>,
                  hits: seq<int>, whole: bool)
    requires Searching(nodes, root, t, box, stack + [n], done, hits, whole)
    ensures n in t && n !in done && n !in stack && 0 <= n < |nodes| && (n == root || nodes[n].link in done)
  {
    OnTop(stack, n);
    assert (stack + [n])[|stack|] == n;
    forall i | 0 <= i < |stack| ensures stack[i] != n { assert (stack + [n])[i] == stack[i]; }
  }

  lemma SearchHits(nodes: seq<TreeNode>, root: int, t: set<int>, box: AABB, stack: seq<int>, done: set<int>,
                   hits: seq<int>, whole: bool)
    requires Searching(nodes, root, t, box, stack, done, hits, whole)
    ensures forall i, j :: 0 <= i < j < |hits| ==> hits[i] != hits[j]
    ensures forall h :: h in hits ==> h in Leaves(nodes, t) && Overlap(Leaves(nodes, t)[h].0, box)
  {
  }

  lemma Taken(nodes: seq<TreeNode>, root: int, t: set<int>, box: AABB, stack: seq<int>, n: int, done: set<int>,
              hits: seq<int>, whole: bool)
    requires Searching(nodes, root, t, box, stack + [n], done, hits, whole)
    ensures Stacked(nodes, root, t, stack, done + {n}) && Reported(nodes, t, box, done + {n}, hits)
  {
    SearchTop(nodes, root, t, box, stack, n, done, hits, whole);
    OnTop(stack, n);
    forall i, j | 0 <= i < j < |stack| ensures stack[i] != stack[j] {
      assert (stack + [n])[i] == stack[i] && (stack + [n])[j] == stack[j];
    }
  }

  lemma SearchMiss(nodes: seq<TreeNode>, root: int, t: set<int>, box: AABB, stack: seq<int>, n: int, done: set<int>,
                   hits: seq<int>, whole: bool)
    requires Searching(nodes, root, t, box, stack + [n], done, hits, whole) && 0 <= n < |nodes|
             && !Overlap(nodes[n].aabb, box)
    ensures Searching(nodes, root, t, box, stack, done + {n}, hits, whole)
  {
    Taken(nodes, root, t, box, stack, n, done, hits, whole);
    if whole {
      hide Stacked, Reported, Overlap;
      OnTop(stack, n);
      forall m | m in done + {n} && 0 <= m < |nodes| && Overlap(nodes[m].aabb, box)
        ensures Searched(nodes, m, stack, done + {n}, hits)
      {
        assert Searched(nodes, m, stack + [n], done, hits);
      }
    }
  }

  lemma SearchHit(nodes: seq<TreeNode>, root: int, t: set<int>, box: AABB, stack: seq<int>, n: int, done: set<int>,
                  hits: seq<int>, whole: bool)
    requires Searching(nodes, root, t, box, stack + [n], done, hits, whole) && 0 <= n < |nodes|
    requires IsLeaf(nodes[n]) && Overlap(nodes[n].aabb, box)
    ensures Searching(nodes, root, t, box, stack, done + {n}, hits + [n], whole)
  {
    SearchTop(nodes, root, t, box, stack, n, done, hits, whole);
    Taken(nodes, root, t, box, stack, n, done, hits, whole);
    OnTop(hits, n);
    assert Reported(nodes, t, box, done + {n}, hits + [n]);
    if whole {
      hide Stacked, Reported, Overlap;
      OnTop(stack, n);
      forall m | m in done + {n} && 0 <= m < |nodes| && Overlap(nodes[m].aabb, box)
        ensures Searched(nodes, m, stack, done + {n}, hits + [n])
      {
        if m != n { assert Searched(nodes, m, stack + [n], done, hits); }
      }
    }
  }

  // The children of a branch are pushed; if there is no place for one, the search is not whole.
  lemma SearchPush(nodes: seq<TreeNode>, root: int, t: set<int>, rank: seq<real>, box: AABB, stack: seq<int>, n: int,
                   done: set<int>, hits: seq<int>, before: bool, stack': seq<int>, whole: bool)
    requires Shape(nodes, root, t, rank) && 0 <= n < |nodes| && !IsLeaf(nodes[n])
    requires Searching(nodes, root, t, box, stack + [n], done, hits, before) && (whole ==> before)
    requires stack' == stack + [nodes[n].child1, nodes[n].child2] || (!whole && stack' == stack + [nodes[n].child1])
    ensures Searching(nodes, root, t, box, stack', done + {n}, hits, whole)
  {
    hide Shape, Overlap, Reported;
    SearchTop(nodes, root, t, box, stack, n, done, hits, before);
    Taken(nodes, root, t, box, stack, n, done, hits, before);
    Children(nodes, root, t, rank, n);
    PushOne(nodes, root, t, stack, done + {n}, n, nodes[n].child1);
    OnTop(stack, nodes[n].child1);
    if |stack'| == |stack| + 2 {
      assert stack' == (stack + [nodes[n].child1]) + [nodes[n].child2];
      PushOne(nodes, root, t, stack + [nodes[n].child1], done + {n}, n, nodes[n].child2);
      OnTop(stack + [nodes[n].child1], nodes[n].child2);
    }
    if whole {
      hide Stacked, Reported;
      OnTop(stack, n);
      forall m | m in done + {n} && 0 <= m < |nodes| && Overlap(nodes[m].aabb, box)
        ensures Searched(nodes, m, stack', done + {n}, hits)
      {
        if m != n { assert Searched(nodes, m, stack + [n], done, hits); }
      }
    }
  }

  // A child of a node just taken was never pushed before.
  lemma PushOne(nodes: seq<TreeNode>, root: int, t: set<int>, stack: seq<int>, done: set<int>, n: int, c: int)
    requires Stacked(nodes, root, t, stack, done) && n in done && c in t && 0 <= c < |nodes| && nodes[c].link == n
             && c != root
    requires c !in done && c !in stack
    ensures Stacked(nodes, root, t, stack + [c], done)
  {
    OnTop(stack, c);
  }

  lemma SearchEnds(nodes: seq<TreeNode>, root: int, t: set<int>, rank: seq<real>, box: AABB, done: set<int>,
                   hits: seq<int>)
    requires Shape(nodes, root, t, rank) && Boxed(nodes, t, NULL)
             && Searching(nodes, root, t, box, [], done, hits, true)
    ensures forall p :: p in Leaves(nodes, t) && Overlap(Leaves(nodes, t)[p].0, box) ==> p in hits
  {
    forall p | p in Leaves(nodes, t) && Overlap(Leaves(nodes, t)[p].0, box) ensures p in hits {
      AllReached(nodes, root, t, rank, box, done, hits, p);
      assert Searched(nodes, p, [], done, hits);
    }
  }

  lemma HeightOf(nodes: seq<TreeNode>, root: int, t: set<int>, rank: seq<real>, n: int)
    requires Shape(nodes, root, t, rank) && n in t && 0 <= n < |nodes| && !IsLeaf(nodes[n])
    ensures nodes[n].child1 in t && nodes[n].child2 in t
    ensures Height(nodes, root, t, rank, nodes[n].child1) < Height(nodes, root, t, rank, n)
    ensures Height(nodes, root, t, rank, nodes[n].child2) < Height(nodes, root, t, rank, n)
    ensures Height(nodes, root, t, rank, nodes[n].child1) >= 1 && Height(nodes, root, t, rank, nodes[n].child2) >= 1
  {
    hide Shape;
    Children(nodes, root, t, rank, n);
    Children(nodes, root, t, rank, nodes[n].child1);
    Children(nodes, root, t, rank, nodes[n].child2);
  }

  ghost function Indices(n: nat): (s: set<int>)
    ensures forall i :: i in s <==> 0 <= i < n
    ensures |s| == n
  {
    if n == 0 then {} else Indices(n - 1) + {n - 1}
  }

  lemma {:induction false} DistinctCount(xs: seq<int>)
    requires forall i, j :: 0 <= i < j < |xs| ==> xs[i] != xs[j]
    ensures |set x | x in xs| == |xs|
  {
    if xs != [] {
      var rest, x := xs[..|xs| - 1], xs[|xs| - 1];
      DistinctCount(rest);
      assert xs == rest + [x] && x !in rest;
      assert (set y | y in xs) == (set y | y in rest) + {x};
    }
  }

  predicate PathBit(path: bv32, bit: nat)
    requires bit < 32
  {
    (path >> bit) & 1 == 1
  }

  // c is the child of n whose center is nearer; the second one unless the first is strictly nearer.
  predicate Nearer(nodes: seq<TreeNode>, center: Vec2, n: int, c: int) {
    && 0 <= n < |nodes| && 0 <= nodes[n].child1 < |nodes| && 0 <= nodes[n].child2 < |nodes|
    && var norm1 := Distance(Center(nodes[nodes[n].child1].aabb), center);
       var norm2 := Distance(Center(nodes[nodes[n].child2].aabb), center);
       HasChild(nodes[n], c) && (c != nodes[n].child2 ==> norm1 < norm2) && (c != nodes[n].child1 ==> norm1 >= norm2)
  }

  // The i-th turn on the way down goes from n to c.
  predicate Turned(nodes: seq<TreeNode>, path: bv32, i: nat, n: int, c: int) {
    0 <= n < |nodes| && c == if PathBit(path, i % 32) then nodes[n].child2 else nodes[n].child1
  }

  function FatBox(aabb: AABB, displacement: Vec2): AABB {
    Stretched(Extended(aabb, EXTENSION), Vec2(MULTIPLIER * displacement.x, MULTIPLIER * displacement.y))
  }

  // A fat box holds the box it was made from, where it is and where it is predicted to go.
  lemma FatBoxContains(aabb: AABB, displacement: Vec2)
    ensures var fat := FatBox(aabb, displacement);
            Contains(fat, aabb)
              && Contains(fat, Moved(aabb, Vec2(MULTIPLIER * displacement.x, MULTIPLIER * displacement.y)))
  {
    var d := Vec2(MULTIPLIER * displacement.x, MULTIPLIER * displacement.y);
    ExtendedHolds(aabb, EXTENSION);
    StretchedHolds(Extended(aabb, EXTENSION), d);
  }

  lemma NotYet(nodes: seq<TreeNode>, root: int, t: set<int>, rank: seq<real>)
    requires Shape(nodes, root, t, rank)
    ensures forall n :: n in Leaves(nodes, t) ==> n in t
  {
  }

  lemma LeafEntry(nodes: seq<TreeNode>, t: set<int>, n: int)
    requires n in t && 0 <= n < |nodes| && IsLeaf(nodes[n])
    ensures n in Leaves(nodes, t) && Leaves(nodes, t)[n] == (nodes[n].aabb, nodes[n].userData)
    ensures (Leaves(nodes, t) - {n})[n := (nodes[n].aabb, nodes[n].userData)] == Leaves(nodes, t)
  {
  }

  lemma Replaced(m: map<int, (AABB, int)>, n: int, v: (AABB, int))
    ensures (m - {n})[n := v] == m[n := v]
  {
  }

  lemma SomeLeaf(nodes: seq<TreeNode>, t: set<int>, n: int)
    requires n in Leaves(nodes, t)
    ensures t != {}
  {
  }

  lemma UnlinkedOnly(nodes: seq<TreeNode>, root: int, t: set<int>, rank: seq<real>, leaf: int, nodes': seq<TreeNode>)
    requires Shape(nodes, root, t, rank) && leaf in t && leaf != root && 0 <= leaf < |nodes| && IsLeaf(nodes[leaf])
    requires Unlinked(nodes, leaf, nodes')
    ensures |nodes'| == |nodes| && forall i :: 0 <= i < |nodes| && i !in t ==> nodes'[i] == nodes[i]
    ensures var node1 := nodes[nodes[leaf].link].link;
            node1 != NULL ==>
              node1 in t && node1 != leaf && node1 != nodes[leaf].link && 0 <= node1 < |nodes| && !IsLeaf(nodes'[node1])
  {
    var node2 := nodes[leaf].link;
    Relatives(nodes, root, t, rank, leaf);
    SiblingParent(nodes, root, t, rank, node2);
    Grandparent(nodes, root, t, rank, leaf);
  }

  // The grandparent is neither the leaf nor its sibling.
  lemma Grandparent(nodes: seq<TreeNode>, root: int, t: set<int>, rank: seq<real>, leaf: int)
    requires Shape(nodes, root, t, rank) && leaf in t && leaf != root && 0 <= leaf < |nodes| && IsLeaf(nodes[leaf])
    ensures 0 <= nodes[leaf].link < |nodes|
    ensures var node1 := nodes[nodes[leaf].link].link;
            node1 != NULL ==> node1 in t && 0 <= node1 < |nodes| && node1 != leaf && node1 != nodes[leaf].link
                              && node1 != SiblingOf(nodes, leaf) && !IsLeaf(nodes[node1])
  {
    Relatives(nodes, root, t, rank, leaf);
    var node2, sibling := nodes[leaf].link, SiblingOf(nodes, leaf);
    assert ShapeAt(nodes, root, t, rank, node2) && ShapeAt(nodes, root, t, rank, sibling)
           && ShapeAt(nodes, root, t, rank, leaf);
    var node1 := nodes[node2].link;
    if node1 != NULL { assert ShapeAt(nodes, root, t, rank, node1); }
  }

  lemma ParentIsBranch(nodes: seq<TreeNode>, root: int, t: set<int>, rank: seq<real>, p: int)
    requires Shape(nodes, root, t, rank) && p in t && 0 <= p < |nodes| && exists n :: n in t && HasChild(nodes[p], n)
    ensures !IsLeaf(nodes[p])
  {
    assert ShapeAt(nodes, root, t, rank, p);
    var n :| n in t && HasChild(nodes[p], n);
    assert ShapeAt(nodes, root, t, rank, n);
  }

  // The least box for its children can replace the box of a node.
  lemma ShrinkKeeps(nodes: seq<TreeNode>, root: int, t: set<int>, rank: seq<real>, n: int)
    requires Shape(nodes, root, t, rank) && Boxed(nodes, t, NULL) && n in t && 0 <= n < |nodes| && !IsLeaf(nodes[n])
    ensures 0 <= nodes[n].child1 < |nodes| && 0 <= nodes[n].child2 < |nodes|
    ensures var box := Combine(nodes[nodes[n].child1].aabb, nodes[nodes[n].child2].aabb);
            var nodes' := nodes[n := nodes[n].(aabb := box)];
            Shape(nodes', root, t, rank) && Boxed(nodes', t, NULL) && Leaves(nodes', t) == Leaves(nodes, t)
  {
    hide Shape, ShapeAt, Boxed, BoxedAt;
    StopsAtOnce(nodes, root, t, rank, n);
    var box := Combine(nodes[nodes[n].child1].aabb, nodes[nodes[n].child2].aabb);
    var nodes' := nodes[n := nodes[n].(aabb := box)];
    ReboxShape(nodes, root, t, rank, n, box);
    forall m | m in t && m != NULL ensures BoxedAt(nodes', m) {
      ShapeHolds(nodes, root, t, rank, m);
      BoxHolds(nodes, t, m);
      ShrinkAt(nodes, n, box, m);
    }
    BoxesFrom(nodes', t);
  }

  lemma ShrinkAt(nodes: seq<TreeNode>, n: int, box: AABB, m: int)
    requires 0 <= n < |nodes| && 0 <= m < |nodes| && BoxedAt(nodes, m) && Contains(nodes[n].aabb, box)
    requires !IsLeaf(nodes[n]) && 0 <= nodes[n].child1 < |nodes| && 0 <= nodes[n].child2 < |nodes|
    requires box == Combine(nodes[nodes[n].child1].aabb, nodes[nodes[n].child2].aabb)
    ensures BoxedAt(nodes[n := nodes[n].(aabb := box)], m)
  {
    CombineLeast(nodes[nodes[n].child1].aabb, nodes[nodes[n].child2].aabb, box);
  }

  // A node whose box contains those of its children contains the least such
  // box, so the shrinking after a removal always ends with the first ancestor.
  lemma StopsAtOnce(nodes: seq<TreeNode>, root: int, t: set<int>, rank: seq<real>, n: int)
    requires Shape(nodes, root, t, rank) && Boxed(nodes, t, NULL) && n in t && 0 <= n < |nodes| && !IsLeaf(nodes[n])
    ensures 0 <= nodes[n].child1 < |nodes| && 0 <= nodes[n].child2 < |nodes|
    ensures Contains(nodes[n].aabb, Combine(nodes[nodes[n].child1].aabb, nodes[nodes[n].child2].aabb))
  {
    assert ShapeAt(nodes, root, t, rank, n) && BoxedAt(nodes, n);
    CombineLeast(nodes[nodes[n].child1].aabb, nodes[nodes[n].child2].aabb, nodes[n].aabb);
  }

  lemma LeafFacts(nodes: seq<TreeNode>, root: int, t: set<int>, rank: seq<real>, leaf: int)
    requires Shape(nodes, root, t, rank) && leaf in Leaves(nodes, t)
    ensures leaf in t && 0 <= leaf < |nodes| && IsLeaf(nodes[leaf]) && nodes[leaf].child2 == NULL
  {
    assert ShapeAt(nodes, root, t, rank, leaf);
  }

  // A root without children is the only node.
  lemma LastLeaf(nodes: seq<TreeNode>, root: int, t: set<int>, rank: seq<real>)
    requires Shape(nodes, root, t, rank) && root in t && 0 <= root < |nodes| && IsLeaf(nodes[root])
    ensures t == {root}
  {
    forall n | n in t ensures n == root { UnderLeaf(nodes, root, t, rank, n); }
  }

  lemma {:induction false} UnderLeaf(nodes: seq<TreeNode>, root: int, t: set<int>, rank: seq<real>, n: int)
    requires Shape(nodes, root, t, rank) && root in t && 0 <= root < |nodes| && IsLeaf(nodes[root]) && n in t
    ensures n == root
    decreases Above(t, rank, n)
  {
    if n != root {
      assert ShapeAt(nodes, root, t, rank, n) && ShapeAt(nodes, root, t, rank, root);
      Lower(t, rank, nodes[n].link, n);
      UnderLeaf(nodes, root, t, rank, nodes[n].link);
    }
  }

  lemma NothingLeft(nodes: seq<TreeNode>, rank: seq<real>)
    requires |rank| == |nodes|
    ensures Shape(nodes, NULL, {}, rank) && Boxed(nodes, {}, NULL) && Full(nodes, {}) && Leaves(nodes, {}) == map[]
  {
  }

  // Taking a leaf out leaves all boxes large enough.
  lemma UnlinkBoxed(nodes: seq<TreeNode>, root: int, t: set<int>, rank: seq<real>, leaf: int, nodes': seq<TreeNode>)
    requires Shape(nodes, root, t, rank) && Boxed(nodes, t, NULL) && leaf in t && leaf != root && 0 <= leaf < |nodes|
             && IsLeaf(nodes[leaf])
    requires Unlinked(nodes, leaf, nodes')
    ensures Boxed(nodes', t - {leaf, nodes[leaf].link}, NULL)
    ensures Leaves(nodes', t - {leaf, nodes[leaf].link}) == Leaves(nodes, t) - {leaf}
  {
    hide Shape, ShapeAt, Boxed, BoxedAt, Unlinked, Leaves;
    Relatives(nodes, root, t, rank, leaf);
    Grandparent(nodes, root, t, rank, leaf);
    var parent := nodes[leaf].link;
    InRange(nodes, root, t, rank);
    SiblingParent(nodes, root, t, rank, parent);
    BoxHolds(nodes, t, parent);
    forall n | n in t - {leaf, parent} && n != NULL ensures BoxedAt(nodes', n) {
      ShapeHolds(nodes, root, t, rank, n);
      BoxHolds(nodes, t, n);
      UnlinkBoxedAt(nodes, root, t, rank, leaf, nodes', n);
    }
    BoxesFrom(nodes', t - {leaf, parent});
    UnlinkLeaves(nodes, t, leaf, nodes');
  }

  lemma BoxHolds(nodes: seq<TreeNode>, t: set<int>, n: int)
    requires Boxed(nodes, t, NULL) && n in t && n != NULL
    ensures BoxedAt(nodes, n)
  {
  }

  lemma BoxesFrom(nodes: seq<TreeNode>, t: set<int>)
    requires forall n :: n in t && n != NULL ==> BoxedAt(nodes, n)
    ensures Boxed(nodes, t, NULL)
  {
  }

  lemma UnlinkBoxedAt(nodes: seq<TreeNode>, root: int, t: set<int>, rank: seq<real>, leaf: int, nodes': seq<TreeNode>,
                      n: int)
    requires |rank| == |nodes| && Unlinked(nodes, leaf, nodes') && n in t && n != leaf && n != nodes[leaf].link
    requires ShapeAt(nodes, root, t, rank, n) && BoxedAt(nodes, n) && BoxedAt(nodes, nodes[leaf].link)
    requires !IsLeaf(nodes[nodes[leaf].link]) && HasChild(nodes[nodes[leaf].link], SiblingOf(nodes, leaf))
    requires SiblingOf(nodes, leaf) != leaf && SiblingOf(nodes, leaf) != nodes[leaf].link
    requires nodes[nodes[leaf].link].link != SiblingOf(nodes, leaf)
    requires n == nodes[nodes[leaf].link].link ==> HasChild(nodes[n], nodes[leaf].link)
    ensures BoxedAt(nodes', n)
  {
    var parent, sibling := nodes[leaf].link, SiblingOf(nodes, leaf);
    if !IsLeaf(nodes'[n]) && !IsLeaf(nodes[n]) {
      forall c | HasChild(nodes'[n], c) ensures Encloses(nodes', n, c) {
        if HasChild(nodes[n], parent) {
          assert Encloses(nodes, n, parent) && Encloses(nodes, parent, sibling);
          if c != sibling { assert HasChild(nodes[n], c) && Encloses(nodes, n, c); }
        } else {
          assert HasChild(nodes[n], c) && Encloses(nodes, n, c);
        }
      }
    }
  }

  lemma UnlinkLeaves(nodes: seq<TreeNode>, t: set<int>, leaf: int, nodes': seq<TreeNode>)
    requires Unlinked(nodes, leaf, nodes') && forall i :: i in t ==> 0 <= i < |nodes|
    requires !IsLeaf(nodes[nodes[leaf].link]) && leaf in t
    requires var p := nodes[nodes[leaf].link].link; p != NULL ==> 0 <= p < |nodes| && !IsLeaf(nodes[p])
                                                                  && p != SiblingOf(nodes, leaf) && p != leaf
    requires SiblingOf(nodes, leaf) in t && SiblingOf(nodes, leaf) != leaf
    ensures Leaves(nodes', t - {leaf, nodes[leaf].link}) == Leaves(nodes, t) - {leaf}
  {
  }

  lemma FullUnlinked(nodes: seq<TreeNode>, t: set<int>, leaf: int, parent: int, nodes': seq<TreeNode>)
    requires Full(nodes, t) && leaf in Leaves(nodes, t) && parent in t && leaf != parent && leaf in t
    requires Leaves(nodes', t - {leaf, parent}) == Leaves(nodes, t) - {leaf}
    ensures Full(nodes', t - {leaf, parent})
  {
    var l := Leaves(nodes, t).Keys;
    assert Leaves(nodes', t - {leaf, parent}).Keys == l - {leaf};
    assert |t - {leaf, parent}| == |t| - 2 by { assert t == (t - {leaf, parent}) + {leaf, parent}; }
  }

  lemma LinkedOnly(nodes: seq<TreeNode>, sibling: int, leaf: int, parent: int, nodes': seq<TreeNode>, t: set<int>)
    requires Linked(nodes, sibling, leaf, parent, nodes') && sibling in t
    requires nodes[sibling].link == NULL || nodes[sibling].link in t
    ensures |nodes'| == |nodes|
            && forall i :: 0 <= i < |nodes| && i !in t && i !in {leaf} + {parent} ==> nodes'[i] == nodes[i]
  {
  }

  lemma OnlyLeaf(nodes: seq<TreeNode>, rank: seq<real>, leaf: int, nodes': seq<TreeNode>)
    requires |rank| == |nodes| && 0 <= leaf < |nodes| && IsLeaf(nodes[leaf]) && nodes[leaf].child2 == NULL
    requires nodes' == nodes[leaf := nodes[leaf].(link := NULL)]
    ensures Shape(nodes', leaf, {leaf}, rank) && Boxed(nodes', {leaf}, NULL) && Full(nodes', {leaf})
    ensures Leaves(nodes', {leaf}) == Leaves(nodes, {})[leaf := (nodes[leaf].aabb, nodes[leaf].userData)]
  {
    assert Leaves(nodes', {leaf}).Keys == {leaf};
  }

  lemma SiblingParent(nodes: seq<TreeNode>, root: int, t: set<int>, rank: seq<real>, n: int)
    requires Shape(nodes, root, t, rank) && n in t
    ensures 0 <= n < |nodes| && (nodes[n].link == NULL <==> n == root)
    ensures var p := nodes[n].link; p != NULL ==> p in t && p != n && 0 <= p < |nodes| && HasChild(nodes[p], n)
  {
    assert ShapeAt(nodes, root, t, rank, n);
  }

  // Right after linking only the box of the parent above may be too small.
  lemma LinkBoxed(nodes: seq<TreeNode>, root: int, t: set<int>, rank: seq<real>, sibling: int, leaf: int, parent: int,
                  nodes': seq<TreeNode>)
    requires Shape(nodes, root, t, rank) && Boxed(nodes, t, NULL) && sibling in t && leaf !in t && parent !in t
             && leaf != parent
    requires Linked(nodes, sibling, leaf, parent, nodes') && IsLeaf(nodes[leaf]) && IsLeaf(nodes[sibling])
    requires nodes'[parent].aabb == Combine(nodes[leaf].aabb, nodes[sibling].aabb)
    ensures var n := nodes[sibling].link;
            && Boxed(nodes', t + {leaf, parent}, n)
            && (n != NULL ==> 0 <= n < |nodes'| && HasChild(nodes'[n], parent) && EnclosesOther(nodes', n, parent))
    ensures Leaves(nodes', t + {leaf, parent}) == Leaves(nodes, t)[leaf := (nodes[leaf].aabb, nodes[leaf].userData)]
  {
    var p := nodes[sibling].link;
    SiblingParent(nodes, root, t, rank, sibling);
    forall n | n in t + {leaf, parent} && n != p ensures BoxedAt(nodes', n) {
      if n in t { assert ShapeAt(nodes, root, t, rank, n) && BoxedAt(nodes, n); }
    }
    if p != NULL { assert ShapeAt(nodes, root, t, rank, p) && BoxedAt(nodes, p); }
    InRange(nodes, root, t, rank);
    LinkLeaves(nodes, t, sibling, leaf, parent, nodes');
  }

  lemma LinkLeaves(nodes: seq<TreeNode>, t: set<int>, sibling: int, leaf: int, parent: int, nodes': seq<TreeNode>)
    requires (forall i :: i in t ==> 0 <= i < |nodes|) && sibling in t && leaf !in t && parent !in t && leaf != parent
    requires Linked(nodes, sibling, leaf, parent, nodes') && IsLeaf(nodes[leaf]) && IsLeaf(nodes[sibling])
    requires nodes[sibling].link in t ==> !IsLeaf(nodes[nodes[sibling].link])
    ensures Leaves(nodes', t + {leaf, parent}) == Leaves(nodes, t)[leaf := (nodes[leaf].aabb, nodes[leaf].userData)]
  {
  }

  lemma FullLinked(nodes: seq<TreeNode>, t: set<int>, leaf: int, parent: int, nodes': seq<TreeNode>, v: (AABB, int))
    requires Full(nodes, t) && t != {} && leaf !in t && parent !in t && leaf != parent
    requires Leaves(nodes', t + {leaf, parent}) == Leaves(nodes, t)[leaf := v]
    ensures Full(nodes', t + {leaf, parent})
  {
    var l := Leaves(nodes, t).Keys;
    assert leaf !in l && Leaves(nodes', t + {leaf, parent}).Keys == l + {leaf};
    assert |t + {leaf, parent}| == |t| + 2 by { assert t + {leaf, parent} == (t + {leaf}) + {parent}; }
  }

  // The box of n contains that of its child other than c.
  ghost predicate EnclosesOther(nodes: seq<TreeNode>, n: int, c: int)
    requires 0 <= n < |nodes|
  {
    forall k :: HasChild(nodes[n], k) && k != c ==> Encloses(nodes, n, k)
  }

  lemma BranchNode(nodes: seq<TreeNode>, root: int, t: set<int>, rank: seq<real>, n: int, c: int)
    requires Shape(nodes, root, t, rank) && n in t && 0 <= n < |nodes| && HasChild(nodes[n], c) && 0 <= c
    ensures !IsLeaf(nodes[n])
  {
    assert ShapeAt(nodes, root, t, rank, n);
  }

  lemma LargeEnough(nodes: seq<TreeNode>, root: int, t: set<int>, rank: seq<real>, n: int, c: int)
    requires Shape(nodes, root, t, rank) && Boxed(nodes, t, n) && n in t && 0 <= n < |nodes| && 0 <= c < |nodes|
    requires EnclosesOther(nodes, n, c) && Contains(nodes[n].aabb, nodes[c].aabb)
    ensures Boxed(nodes, t, NULL)
  {
    assert BoxedAt(nodes, n);
  }

  lemma ParentOf(nodes: seq<TreeNode>, root: int, t: set<int>, rank: seq<real>, n: int)
    requires Shape(nodes, root, t, rank) && n in t
    ensures 0 <= n < |nodes| == |rank|
    ensures var p := nodes[n].link;
            p != NULL ==>
              p in t && 0 <= p < |nodes| && HasChild(nodes[p], n) && Above(t, rank, p) < Above(t, rank, n) && p != n
  {
    assert ShapeAt(nodes, root, t, rank, n);
    var p := nodes[n].link;
    if p != NULL { Lower(t, rank, p, n); }
  }

  // After its child c got a new box, a parent still contains the other child.
  lemma OtherEnclosed(nodes: seq<TreeNode>, root: int, t: set<int>, rank: seq<real>, n: int, c: int, box: AABB)
    requires Shape(nodes, root, t, rank) && Boxed(nodes, t, c) && n in t && c in t && n != c && 0 <= c < |nodes|
    ensures 0 <= n < |nodes| && EnclosesOther(nodes[c := nodes[c].(aabb := box)], n, c)
  {
    assert ShapeAt(nodes, root, t, rank, n) && BoxedAt(nodes, n);
  }

  // A full binary tree: one inner node less than leaves.
  ghost predicate Full(nodes: seq<TreeNode>, t: set<int>) {
    t == {} || |t| == 2 * |Leaves(nodes, t).Keys| - 1
  }

  lemma FullStays(nodes: seq<TreeNode>, nodes': seq<TreeNode>, t: set<int>)
    requires Full(nodes, t) && Leaves(nodes', t) == Leaves(nodes, t)
    ensures Full(nodes', t)
  {
  }

  lemma FullGrown(nodes: seq<TreeNode>, root: int, t: set<int>, rank: seq<real>, nodes': seq<TreeNode>)
    requires Full(nodes, t) && Leaves(nodes', t) == Leaves(nodes, t)
    ensures Full(nodes', t)
  {
  }

  lemma SomeFree(nodes: seq<TreeNode>, first: int, free: seq<int>, t: set<int>, d: set<int>, count: int)
    requires Pool(nodes, first, free, t, d, count) && first != NULL
    ensures free != [] && 0 <= first < |nodes|
  {
    assert FreeAt(nodes, free, 0);
  }

  lemma NoneFree(nodes: seq<TreeNode>, first: int, free: seq<int>, t: set<int>, d: set<int>, count: int)
    requires Pool(nodes, first, free, t, d, count) && first == NULL
    ensures free == [] && count == |nodes| > 0
  {
    assert free != [] ==> FreeAt(nodes, free, 0);
  }

  lemma Outside(nodes: seq<TreeNode>, first: int, free: seq<int>, t: set<int>, d: set<int>, count: int)
    requires Pool(nodes, first, free, t, d, count)
    ensures t !! d && forall i :: i in d ==> 0 <= i < |nodes| && i !in t
  {
  }

  lemma InRange(nodes: seq<TreeNode>, root: int, t: set<int>, rank: seq<real>)
    requires Shape(nodes, root, t, rank)
    ensures |rank| == |nodes| && forall i :: i in t ==> 0 <= i < |nodes|
  {
    forall i | i in t ensures 0 <= i < |nodes| { assert ShapeAt(nodes, root, t, rank, i); }
  }
}
