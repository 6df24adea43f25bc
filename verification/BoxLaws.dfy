// What the tree and the broad phase report, told in coordinates and points alone.
module BoxLaws {
  import opened Boxes
  import opened BroadPhase
  import DynamicTree

  // Boxes overlap, touching edges included, just when they share a point.
  lemma SharedPoint(a: AABB, b: AABB)
    requires a.lower.x <= a.upper.x && a.lower.y <= a.upper.y && b.lower.x <= b.upper.x && b.lower.y <= b.upper.y
    ensures Overlap(a, b) <==>
              exists q: Vec2 ::
                && a.lower.x <= q.x <= a.upper.x && a.lower.y <= q.y <= a.upper.y
                && b.lower.x <= q.x <= b.upper.x && b.lower.y <= q.y <= b.upper.y
  {
    var q := Vec2(Max(a.lower.x, b.lower.x), Max(a.lower.y, b.lower.y));
    assert Overlap(a, b) ==> b.lower.x <= q.x <= b.upper.x && b.lower.y <= q.y <= b.upper.y && q.x <= a.upper.x;
  }

  // How near the center of a box is: the two distances along the axes, added.
  lemma CenterDistance(a: AABB, c: Vec2)
    ensures var dx, dy := (a.lower.x + a.upper.x) / 2.0 - c.x, (a.lower.y + a.upper.y) / 2.0 - c.y;
            Distance(Center(a), c) == (if dx >= 0.0 then dx else 0.0 - dx) + if dy >= 0.0 then dy else 0.0 - dy
  {
  }

  // A search reports just the proxies whose fat boxes share a point with the box, each once.
  method Search(tree: DynamicTree.Tree, box: AABB) returns (hits: seq<int>)
    requires tree.Valid() && (tree.TreeHeight() <= 128 || |tree.Proxies()| <= 128)
    ensures forall p ::
              p in hits <==>
              && p in tree.Proxies()
              && tree.Proxies()[p].0.lower.x <= box.upper.x && box.lower.x <= tree.Proxies()[p].0.upper.x
              && tree.Proxies()[p].0.lower.y <= box.upper.y && box.lower.y <= tree.Proxies()[p].0.upper.y
    ensures forall p :: p in tree.Proxies() && box.lower.x <= box.upper.x && box.lower.y <= box.upper.y ==>
              var a := tree.Proxies()[p].0;
              a.lower.x <= a.upper.x && a.lower.y <= a.upper.y ==>
                (p in hits <==>
                 exists q: Vec2 ::
                   && a.lower.x <= q.x <= a.upper.x && a.lower.y <= q.y <= a.upper.y
                   && box.lower.x <= q.x <= box.upper.x && box.lower.y <= q.y <= box.upper.y)
    ensures forall i, j :: 0 <= i < j < |hits| ==> hits[i] != hits[j]
  {
    hide DynamicTree.Tree.ValidBut, DynamicTree.Tree.Proxies, DynamicTree.Tree.TreeHeight;
    tree.HeightBound();
    var all;
    hits, all := tree.Query(box, _ => true);
    ghost var m := tree.Proxies();
    assert hits != [] ==> hits[|hits| - 1] in hits;
    assert all;
    forall p ensures p in hits <==> p in m && Overlap(m[p].0, box) {}
    forall p | p in m && box.lower.x <= box.upper.x && box.lower.y <= box.upper.y
               && m[p].0.lower.x <= m[p].0.upper.x && m[p].0.lower.y <= m[p].0.upper.y
    {
      SharedPoint(m[p].0, box);
    }
  }

  // An update reports just the pairs of which one has moved and whose fat boxes
  // overlap, each once; then all pairs are known whose boxes overlap, fat or tight.
  method Update(phase: Phase) returns (pairs: seq<Pair>)
    requires phase.Valid() && phase.MovesLive() && (phase.tree.TreeHeight() <= 128 || |phase.Boxes()| <= 128)
    modifies phase, phase.tree
    ensures phase.Valid() && phase.Boxes() == old(phase.Boxes()) && phase.tight == old(phase.tight)
    ensures forall a, b ::
              Pair(a, b) in pairs <==>
              && a < b && a in phase.Boxes() && b in phase.Boxes()
              && (a in old(phase.moveBuffer) || b in old(phase.moveBuffer))
              && phase.Boxes()[a].0.lower.x <= phase.Boxes()[b].0.upper.x
              && phase.Boxes()[b].0.lower.x <= phase.Boxes()[a].0.upper.x
              && phase.Boxes()[a].0.lower.y <= phase.Boxes()[b].0.upper.y
              && phase.Boxes()[b].0.lower.y <= phase.Boxes()[a].0.upper.y
    ensures forall i, j :: 0 <= i < j < |pairs| ==> pairs[i] != pairs[j]
    ensures forall p :: p in phase.reported <==> p in old(phase.reported) || p in pairs
    ensures old(phase.Covered()) ==> phase.Covered()
    ensures old(phase.Covered()) ==>
              forall a, b ::
                && a < b && a in phase.tight && b in phase.tight
                && phase.tight[a].lower.x <= phase.tight[b].upper.x && phase.tight[b].lower.x <= phase.tight[a].upper.x
                && phase.tight[a].lower.y <= phase.tight[b].upper.y && phase.tight[b].lower.y <= phase.tight[a].upper.y
                ==> Pair(a, b) in phase.reported
  {
    phase.tree.HeightBound();
    var calls;
    calls, pairs := phase.UpdatePairs();
    ghost var boxes, moves := phase.Boxes(), old(phase.moveBuffer);
    forall a, b ensures Pair(a, b) in pairs <==> NewPair(Pair(a, b), boxes, moves) {}
    forall a, b | TightlyTogether(Pair(a, b), phase.tight) && old(phase.Covered())
      ensures Pair(a, b) in phase.reported
    {
    }
  }

  // The fat boxes: a tenth wider on each side, and after a move stretched twice the way.
  method Fattened(tree: DynamicTree.Tree, aabb: AABB, moved: AABB, way: Vec2) returns (id: int)
    requires tree.Valid()
    modifies tree
    ensures tree.Valid() && id !in old(tree.Proxies())
    ensures id in tree.Proxies() && var b := tree.Proxies()[id].0;
            if aabb.lower.x - 0.1 <= moved.lower.x && aabb.lower.y - 0.1 <= moved.lower.y
               && moved.upper.x <= aabb.upper.x + 0.1 && moved.upper.y <= aabb.upper.y + 0.1 then
              b == AABB(Vec2(aabb.lower.x - 0.1, aabb.lower.y - 0.1), Vec2(aabb.upper.x + 0.1, aabb.upper.y + 0.1))
            else
              && b.lower.x == (if way.x < 0.0 then moved.lower.x - 0.1 + 2.0 * way.x else moved.lower.x - 0.1)
              && b.lower.y == (if way.y < 0.0 then moved.lower.y - 0.1 + 2.0 * way.y else moved.lower.y - 0.1)
              && b.upper.x == (if way.x < 0.0 then moved.upper.x + 0.1 else moved.upper.x + 0.1 + 2.0 * way.x)
              && b.upper.y == if way.y < 0.0 then moved.upper.y + 0.1 else moved.upper.y + 0.1 + 2.0 * way.y
  {
    id := tree.CreateProxy(aabb, 0);
    var _ := tree.MoveProxy(id, moved, way);
  }
}
