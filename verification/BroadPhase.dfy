// The broad phase: buffers the proxies that moved and reports the pairs of
// proxies whose fat boxes overlap and of which one has moved.
module BroadPhase {
  import opened Boxes
  import DynamicTree

  const NULL_PROXY := -1

  datatype Pair = Pair(a: int, b: int)

  predicate Less(p: Pair, q: Pair) { p.a < q.a || (p.a == q.a && p.b < q.b) }

  predicate Sorted(ps: seq<Pair>) {
    forall i, j :: 0 <= i < j < |ps| ==> !Less(ps[j], ps[i])
  }

  // Sorts the pairs, as std::sort does.
  method Sort(ps: seq<Pair>) returns (r: seq<Pair>)
    ensures Sorted(r) && multiset(r) == multiset(ps)
  {
    r := [];
    for i := 0 to |ps|
      invariant Sorted(r) && multiset(r) == multiset(ps[..i])
    {
      assert ps[..i + 1] == ps[..i] + [ps[i]];
      r := Insert(r, ps[i]);
    }
    assert ps[..|ps|] == ps;
  }

  method Insert(ps: seq<Pair>, p: Pair) returns (r: seq<Pair>)
    requires Sorted(ps)
    ensures Sorted(r) && multiset(r) == multiset(ps) + multiset{p}
  {
    var k := |ps|;
    while k > 0 && Less(p, ps[k - 1])
      invariant 0 <= k <= |ps| && forall j :: k <= j < |ps| ==> Less(p, ps[j])
    {
      k := k - 1;
    }
    assert ps == ps[..k] + ps[k..];
    r := ps[..k] + [p] + ps[k..];
    InsertedAt(ps, p, k);
  }

  lemma InsertedAt(ps: seq<Pair>, p: Pair, k: nat)
    requires Sorted(ps) && k <= |ps| && (k > 0 ==> !Less(p, ps[k - 1])) && forall j :: k <= j < |ps| ==> Less(p, ps[j])
    ensures Sorted(ps[..k] + [p] + ps[k..])
  {
    hide Less;
    var r := ps[..k] + [p] + ps[k..];
    forall i, j | 0 <= i < j < |r| ensures !Less(r[j], r[i]) {
      var i', j' := if i < k then i else i - 1, if j < k then j else j - 1;
      if i == k {
        Trichotomy(p, ps[j'], p);
      } else if j == k {
        Trichotomy(p, ps[k - 1], ps[i]);
      } else {
        assert r[i] == ps[i'] && r[j] == ps[j'] && i' < j';
      }
    }
  }

  lemma Trichotomy(p: Pair, q: Pair, r: Pair)
    ensures Less(p, q) ==> !Less(q, p)
    ensures !Less(p, q) && !Less(q, r) ==> !Less(p, r)
    ensures !Less(p, p)
  {
  }

  lemma SameMembers<T>(a: seq<T>, b: seq<T>)
    requires multiset(a) == multiset(b)
    ensures forall x :: x in a <==> x in b
  {
    forall x ensures x in a <==> x in b { assert x in a <==> x in multiset(a); assert x in b <==> x in multiset(b); }
  }

  class Phase {
    const tree: DynamicTree.Tree
    var proxyCount: int
    var moveBuffer: seq<int>
    var pairBuffer: seq<Pair>
    ghost var tight: map<int, AABB>      // the boxes that proxies were last given
    ghost var reported: set<Pair>        // the pairs reported since both proxies are there

    ghost predicate Valid()
      reads this, tree
    {
      tree.Valid() && proxyCount == |Boxes()| && Enclosed(Boxes(), tight)
    }

    // Every pair whose fat boxes overlap has been reported or is about to be.
    ghost predicate Covered()
      reads this, tree
    {
      Known(Boxes(), reported, moveBuffer)
    }

    ghost function Boxes(): map<int, (AABB, int)>
      reads tree
    {
      tree.Proxies()
    }

    // Every entry of the move buffer is a live proxy or cleared.
    ghost predicate MovesLive()
      reads this, tree
    {
      Live(moveBuffer, Boxes())
    }

    constructor ()
      ensures Valid() && Boxes() == map[] && moveBuffer == [] && fresh(tree)
      ensures tight == map[] && reported == {} && Covered()
    {
      tree := new DynamicTree.Tree();
      proxyCount, moveBuffer, pairBuffer, tight, reported := 0, [], [], map[], {};
    }

    method CreateProxy(aabb: AABB, userData: int) returns (id: int)
      requires Valid()
      modifies this, tree
      ensures Valid() && id !in old(Boxes())
      ensures Boxes() == old(Boxes())[id := (Extended(aabb, DynamicTree.EXTENSION), userData)]
      ensures moveBuffer == old(moveBuffer) + [id] && (old(MovesLive()) ==> MovesLive())
      ensures tight == old(tight)[id := aabb] && reported == old(reported) && (old(Covered()) ==> Covered())
    {
      hide DynamicTree.Tree.ValidBut, DynamicTree.Tree.Proxies, Known, Enclosed, Contains, Extended;
      ghost var before, moves, given := Boxes(), moveBuffer, tight;
      id := tree.CreateProxy(aabb, userData);
      proxyCount := proxyCount + 1;
      tight := tight[id := aabb];
      ExtendedHolds(aabb, DynamicTree.EXTENSION);
      EnclosedMore(before, given, id, Boxes()[id], aabb);
      BufferMove(id);
      KnownMore(before, reported, moves, id, Boxes()[id]);
    }

    method BufferMove(id: int)
      modifies this`moveBuffer
      ensures moveBuffer == old(moveBuffer) + [id]
    {
      moveBuffer := moveBuffer + [id];
    }

    // Clears the first entry for a proxy.
    method UnBufferMove(id: int)
      modifies this`moveBuffer
      ensures |moveBuffer| == |old(moveBuffer)|
      ensures FirstCleared(old(moveBuffer), id, moveBuffer)
    {
      var i := 0;
      while i < |moveBuffer|
        invariant 0 <= i <= |moveBuffer| && moveBuffer == old(moveBuffer)
        invariant id !in moveBuffer[..i]
      {
        if moveBuffer[i] == id {
          moveBuffer := moveBuffer[i := NULL_PROXY];
          assert FirstAt(old(moveBuffer), id, i);
          return;
        }
        i := i + 1;
      }
    }

    // A destroyed proxy is left in the move buffer exactly when it was there more than once.
    method DestroyProxy(id: int)
      requires Valid() && id in Boxes()
      modifies this, tree
      ensures Valid() && Boxes() == old(Boxes()) - {id}
      ensures FirstCleared(old(moveBuffer), id, moveBuffer)
      ensures old(MovesLive()) ==> (MovesLive() <==> AtMostOnce(old(moveBuffer), id))
      ensures tight == old(tight) - {id} && reported == Without(old(reported), id) && (old(Covered()) ==> Covered())
    {
      hide DynamicTree.Tree.ValidBut, DynamicTree.Tree.Proxies, Known, Enclosed, FirstCleared, AtMostOnce, Live,
           Without, Contains;
      ghost var moves, before := moveBuffer, Boxes();
      tree.ProxyIds();
      UnBufferMove(id);
      Removed(before, id);
      proxyCount := proxyCount - 1;
      tree.DestroyProxy(id);
      KnownLess(before, reported, moves, id, moveBuffer);
      EnclosedLess(before, tight, id);
      tight, reported := tight - {id}, Without(reported, id);
      if Live(moves, before) { LiveAfter(moves, id, moveBuffer, before); }
    }

    method MoveProxy(id: int, aabb: AABB, displacement: Vec2)
      requires Valid() && id in Boxes()
      modifies this, tree
      ensures Valid()
      ensures var box := old(Boxes())[id];
              if Contains(box.0, aabb) then Boxes() == old(Boxes()) && moveBuffer == old(moveBuffer)
              else
                && Boxes() == old(Boxes())[id := (DynamicTree.FatBox(aabb, displacement), box.1)]
                && moveBuffer == old(moveBuffer) + [id]
      ensures old(MovesLive()) ==> MovesLive()
      ensures tight == old(tight)[id := aabb] && reported == old(reported) && (old(Covered()) ==> Covered())
    {
      hide DynamicTree.Tree.ValidBut, DynamicTree.Tree.Proxies, Known, Enclosed, Contains, DynamicTree.FatBox;
      ghost var before, moves := Boxes(), moveBuffer;
      var buffer := tree.MoveProxy(id, aabb, displacement);
      DynamicTree.FatBoxContains(aabb, displacement);
      EnclosedMore(before, tight, id, Boxes()[id], aabb);
      assert before[id := Boxes()[id]] == Boxes();
      tight := tight[id := aabb];
      if buffer {
        assert before[id := Boxes()[id]].Keys == before.Keys;
        BufferMove(id);
        KnownMore(before, reported, moves, id, Boxes()[id]);
      }
    }

    // Adds the pairs of a moved proxy with the proxies that its fat box overlaps.
    method QueryMoved(q: int)
      requires Valid() && q in Boxes()
      modifies this`pairBuffer
      ensures forall p :: p in pairBuffer ==> p in old(pairBuffer) || NewPair(p, Boxes(), [q])
      ensures forall p :: p in old(pairBuffer) ==> p in pairBuffer
      ensures tree.TreeHeight() <= DynamicTree.STACK_SIZE ==> forall p :: NewPair(p, Boxes(), [q]) ==> p in pairBuffer
    {
      hide DynamicTree.Tree.ValidBut, DynamicTree.Tree.Proxies, Overlap;
      var box := tree.GetFatAABB(q);
      var proceed := (id: int) => true;
      var hits, all := tree.Query(box, proceed);
      assert hits != [] ==> proceed(hits[|hits| - 1]);
      PairsFound(hits, q, Boxes(), tree.TreeHeight() <= DynamicTree.STACK_SIZE);
      pairBuffer := pairBuffer + PairsWith(hits, q);
    }

    // Queries the tree with the fat box of every moved proxy.
    method GatherPairs()
      requires Valid() && MovesLive()
      modifies this`pairBuffer
      ensures forall p :: p in pairBuffer ==> NewPair(p, Boxes(), moveBuffer)
      ensures tree.TreeHeight() <= DynamicTree.STACK_SIZE ==>
                forall p :: NewPair(p, Boxes(), moveBuffer) ==> p in pairBuffer
    {
      hide DynamicTree.Tree.ValidBut, DynamicTree.Tree.Proxies, Overlap, NewPair;
      pairBuffer := [];
      NoMoves(Boxes());
      tree.ProxyIds();
      var i := 0;
      while i < |moveBuffer|
        invariant 0 <= i <= |moveBuffer|
        invariant forall p :: p in pairBuffer ==> NewPair(p, Boxes(), moveBuffer[..i])
        invariant tree.TreeHeight() <= DynamicTree.STACK_SIZE ==>
                    forall p :: NewPair(p, Boxes(), moveBuffer[..i]) ==> p in pairBuffer
      {
        var q := moveBuffer[i];
        assert q in moveBuffer;
        OneMore(Boxes(), moveBuffer, i);
        if q != NULL_PROXY {
          QueryMoved(q);
        } else {
          NoPairWith(Boxes(), q);
        }
        i := i + 1;
      }
      assert moveBuffer[..i] == moveBuffer;
    }

    // Reports each pair of which a member has moved once; calls are the user data handed on.
    method UpdatePairs() returns (calls: seq<(int, int)>, pairs: seq<Pair>)
      requires Valid() && MovesLive()
      modifies this, tree
      ensures Valid() && Boxes() == old(Boxes()) && moveBuffer == []
      ensures Handed(calls, pairs, Boxes())
      ensures forall i, j :: 0 <= i < j < |pairs| ==> Less(pairs[i], pairs[j])
      ensures forall p :: p in pairs ==> NewPair(p, Boxes(), old(moveBuffer))
      ensures old(tree.TreeHeight()) <= DynamicTree.STACK_SIZE ==>
                forall p :: NewPair(p, Boxes(), old(moveBuffer)) ==> p in pairs
      ensures tight == old(tight) && reported == old(reported) + set p | p in pairs
      ensures old(tree.TreeHeight()) <= DynamicTree.STACK_SIZE && old(Covered()) ==>
                Covered() && forall p :: Together(p, Boxes()) || TightlyTogether(p, tight) ==> p in reported
    {
      hide DynamicTree.Tree.ValidBut, DynamicTree.Tree.Proxies, Overlap, NewPair, Known, Together, TightlyTogether,
           Enclosed;
      ghost var moves := moveBuffer;
      GatherPairs();
      ghost var gathered := pairBuffer;
      moveBuffer := [];
      var sorted := Sort(pairBuffer);
      SameMembers(sorted, gathered);
      pairBuffer := sorted;
      forall p | p in pairBuffer ensures p.a in Boxes() && p.b in Boxes() { BothLive(p, Boxes(), moves); }
      calls, pairs := ReportPairs();
      KnownNow(Boxes(), tight, reported, moves, pairs);
      reported := reported + set p | p in pairs;
      tree.Rebalance(4);
    }

    // Reports the pairs of the sorted buffer, skipping duplicates.
    method ReportPairs() returns (calls: seq<(int, int)>, pairs: seq<Pair>)
      requires Valid() && Sorted(pairBuffer) && forall p :: p in pairBuffer ==> p.a in Boxes() && p.b in Boxes()
      ensures Handed(calls, pairs, Boxes())
      ensures forall i, j :: 0 <= i < j < |pairs| ==> Less(pairs[i], pairs[j])
      ensures forall p :: p in pairs <==> p in pairBuffer
    {
      hide DynamicTree.Tree.ValidBut, DynamicTree.Tree.Proxies;
      calls, pairs := [], [];
      var i := 0;
      while i < |pairBuffer|
        invariant 0 <= i <= |pairBuffer| && Handed(calls, pairs, Boxes())
        invariant forall j, k :: 0 <= j < k < |pairs| ==> Less(pairs[j], pairs[k])
        invariant forall p :: p in pairs <==> p in pairBuffer[..i]
        invariant i < |pairBuffer| ==> forall p :: p in pairs ==> Less(p, pairBuffer[i])
      {
        var primary := pairBuffer[i];
        assert primary in pairBuffer;
        var userDataA := tree.GetUserData(primary.a);
        var userDataB := tree.GetUserData(primary.b);
        calls, pairs := calls + [(userDataA, userDataB)], pairs + [primary];
        ghost var start := i;
        i := i + 1;
        while i < |pairBuffer| && pairBuffer[i] == primary
          invariant start < i <= |pairBuffer| && forall k :: start <= k < i ==> pairBuffer[k] == primary
        {
          i := i + 1;
        }
        Skipped(pairBuffer, start, i);
      }
      assert pairBuffer[..i] == pairBuffer;
    }
  }

  // The calls hand on the user data of the pairs.
  ghost predicate Handed(calls: seq<(int, int)>, pairs: seq<Pair>, boxes: map<int, (AABB, int)>) {
    |calls| == |pairs|
    && forall i :: 0 <= i < |pairs| ==>
         pairs[i].a in boxes && pairs[i].b in boxes && calls[i] == (boxes[pairs[i].a].1, boxes[pairs[i].b].1)
  }

  lemma Skipped(ps: seq<Pair>, start: nat, i: nat)
    requires Sorted(ps) && start < i <= |ps| && forall k :: start <= k < i ==> ps[k] == ps[start]
    requires i < |ps| ==> ps[i] != ps[start]
    ensures forall p :: p in ps[..i] <==> p in ps[..start] || p == ps[start]
    ensures i < |ps| ==> Less(ps[start], ps[i])
  {
    assert forall k :: 0 <= k < i ==> ps[..i][k] == ps[k];
    assert ps[..i] == ps[..start] + ps[start..i];
    assert ps[start..i][0] == ps[start];
  }

  lemma BothLive(p: Pair, boxes: map<int, (AABB, int)>, moves: seq<int>)
    requires NewPair(p, boxes, moves)
    ensures p.a in boxes && p.b in boxes
  {
  }

  lemma NoMoves(boxes: map<int, (AABB, int)>)
    ensures forall p :: !NewPair(p, boxes, [])
  {
  }

  lemma OneMore(boxes: map<int, (AABB, int)>, moves: seq<int>, i: nat)
    requires i < |moves|
    ensures forall p :: NewPair(p, boxes, moves[..i + 1]) <==>
              NewPair(p, boxes, moves[..i]) || NewPair(p, boxes, [moves[i]])
  {
    assert moves[..i + 1] == moves[..i] + [moves[i]];
  }

  lemma NoPairWith(boxes: map<int, (AABB, int)>, q: int)
    requires q !in boxes
    ensures forall p :: !NewPair(p, boxes, [q])
  {
  }

  lemma PairsFound(hits: seq<int>, q: int, boxes: map<int, (AABB, int)>, whole: bool)
    requires q in boxes && forall h :: h in hits ==> h in boxes && Overlap(boxes[h].0, boxes[q].0)
    requires whole ==> forall h :: h in boxes && Overlap(boxes[h].0, boxes[q].0) ==> h in hits
    ensures forall p :: p in PairsWith(hits, q) ==> NewPair(p, boxes, [q])
    ensures whole ==> forall p :: NewPair(p, boxes, [q]) ==> p in PairsWith(hits, q)
  {
    InPairsWith(hits, q);
  }

  // a is below b, and their boxes overlap.
  ghost predicate Together(p: Pair, boxes: map<int, (AABB, int)>) {
    p.a < p.b && p.a in boxes && p.b in boxes && Overlap(boxes[p.a].0, boxes[p.b].0)
  }

  ghost predicate TightlyTogether(p: Pair, tight: map<int, AABB>) {
    p.a < p.b && p.a in tight && p.b in tight && Overlap(tight[p.a], tight[p.b])
  }

  // One of the two has moved.
  ghost predicate NewPair(p: Pair, boxes: map<int, (AABB, int)>, moves: seq<int>) {
    Together(p, boxes) && (p.a in moves || p.b in moves)
  }

  // ---------- over whole runs ----------

  // The fat boxes contain those that proxies were given.
  ghost predicate Enclosed(boxes: map<int, (AABB, int)>, tight: map<int, AABB>) {
    tight.Keys == boxes.Keys && forall id :: id in boxes ==> Contains(boxes[id].0, tight[id])
  }

  lemma EnclosedMore(boxes: map<int, (AABB, int)>, tight: map<int, AABB>, id: int, entry: (AABB, int), aabb: AABB)
    requires Enclosed(boxes, tight) && Contains(entry.0, aabb)
    ensures Enclosed(boxes[id := entry], tight[id := aabb])
  {
  }

  lemma EnclosedLess(boxes: map<int, (AABB, int)>, tight: map<int, AABB>, id: int)
    requires Enclosed(boxes, tight)
    ensures Enclosed(boxes - {id}, tight - {id})
  {
  }

  ghost predicate Known(boxes: map<int, (AABB, int)>, reported: set<Pair>, moves: seq<int>) {
    forall p {:trigger Together(p, boxes)} :: Together(p, boxes) ==> p in reported || p.a in moves || p.b in moves
  }

  ghost function Without(reported: set<Pair>, id: int): set<Pair> { set p | p in reported && p.a != id && p.b != id }

  // A proxy with a new fat box is in the move buffer.
  lemma KnownMore(boxes: map<int, (AABB, int)>, reported: set<Pair>, moves: seq<int>, id: int, entry: (AABB, int))
    ensures Known(boxes, reported, moves) ==> Known(boxes[id := entry], reported, moves + [id])
  {
    forall p | Together(p, boxes[id := entry]) && p.a != id && p.b != id ensures Together(p, boxes) {}
  }

  // The other proxies stay in it when one is destroyed.
  lemma KnownLess(boxes: map<int, (AABB, int)>, reported: set<Pair>, moves: seq<int>, id: int, moves': seq<int>)
    requires FirstCleared(moves, id, moves')
    ensures Known(boxes, reported, moves) ==> Known(boxes - {id}, Without(reported, id), moves')
  {
    forall m | m in moves && m != id ensures m in moves' {
      var j :| 0 <= j < |moves| && moves[j] == m;
      assert moves'[j] == m;
    }
    forall p | Together(p, boxes - {id}) ensures Together(p, boxes) {}
  }

  // When all new pairs have been reported, all pairs have.
  lemma KnownNow(boxes: map<int, (AABB, int)>, tight: map<int, AABB>, reported: set<Pair>, moves: seq<int>,
                 pairs: seq<Pair>)
    requires Enclosed(boxes, tight)
    ensures Known(boxes, reported, moves) && (forall p :: NewPair(p, boxes, moves) ==> p in pairs) ==>
              var r := reported + set p | p in pairs;
              Known(boxes, r, []) && forall p :: Together(p, boxes) || TightlyTogether(p, tight) ==> p in r
  {
    forall p | TightlyTogether(p, tight) ensures Together(p, boxes) {
      OverlapGrows(boxes[p.a].0, tight[p.a], tight[p.b]);
      OverlapSwaps(boxes[p.a].0, tight[p.b]);
      OverlapGrows(boxes[p.b].0, tight[p.b], boxes[p.a].0);
      OverlapSwaps(boxes[p.b].0, boxes[p.a].0);
    }
    forall p | Together(p, boxes) && (p.a in moves || p.b in moves) ensures NewPair(p, boxes, moves) {}
  }

  // A proxy that is created, moved out of its fat box and then destroyed leaves a stale entry.
  method StaleEntry() returns (phase: Phase, id: int)
    ensures phase.Valid() && id !in phase.Boxes() && phase.moveBuffer == [NULL_PROXY, id] && !phase.MovesLive()
  {
    hide DynamicTree.Tree.ValidBut, DynamicTree.Tree.Proxies, Known, Enclosed;
    phase := new Phase();
    var near := AABB(Vec2(0.0, 0.0), Vec2(1.0, 1.0));
    var far := AABB(Vec2(9.0, 9.0), Vec2(10.0, 10.0));
    id := phase.CreateProxy(near, 0);
    phase.tree.ProxyIds();
    phase.MoveProxy(id, far, Vec2(0.0, 0.0));
    var moves := phase.moveBuffer;
    assert moves == [id, id];
    phase.DestroyProxy(id);
    assert FirstAt(moves, id, 0) && forall i :: FirstAt(moves, id, i) ==> i == 0;
    assert phase.moveBuffer[1] == id;
  }

  // The pairs that the callback adds, proxy q being queried.
  function PairsWith(hits: seq<int>, q: int): seq<Pair> {
    if hits == [] then []
    else
      var init, h := hits[..|hits| - 1], hits[|hits| - 1];
      PairsWith(init, q) + if h == q then [] else [Pair(if h < q then h else q, if h < q then q else h)]
  }

  lemma {:induction false} InPairsWith(hits: seq<int>, q: int)
    ensures forall p :: p in PairsWith(hits, q) <==>
              p.a < p.b && ((p.a == q && p.b in hits) || (p.b == q && p.a in hits))
  {
    if hits != [] {
      var init, h := hits[..|hits| - 1], hits[|hits| - 1];
      assert hits == init + [h];
      InPairsWith(init, q);
    }
  }

  // Every entry is a proxy or cleared.
  ghost predicate Live(moves: seq<int>, boxes: map<int, (AABB, int)>) {
    forall m :: m in moves ==> m == NULL_PROXY || m in boxes
  }

  ghost predicate AtMostOnce(moves: seq<int>, id: int) {
    forall i, j :: 0 <= i < j < |moves| && moves[i] == id ==> moves[j] != id
  }

  // The first entry of the proxy, if there is one, is cleared.
  ghost predicate FirstCleared(moves: seq<int>, id: int, moves': seq<int>) {
    && (id !in moves ==> moves' == moves)
    && (id in moves ==> exists i :: FirstAt(moves, id, i) && moves' == moves[i := NULL_PROXY])
  }

  ghost predicate FirstAt(moves: seq<int>, id: int, i: int) {
    0 <= i < |moves| && moves[i] == id && id !in moves[..i]
  }

  lemma Removed(m: map<int, (AABB, int)>, id: int)
    requires id in m
    ensures |m - {id}| == |m| - 1
  {
    assert (m - {id}).Keys == m.Keys - {id};
  }

  lemma LiveAfter(moves: seq<int>, id: int, moves': seq<int>, live: map<int, (AABB, int)>)
    requires id != NULL_PROXY && id in live && Live(moves, live)
    requires FirstCleared(moves, id, moves')
    ensures Live(moves', live - {id}) <==> AtMostOnce(moves, id)
  {
    if id in moves {
      var i :| FirstAt(moves, id, i) && moves' == moves[i := NULL_PROXY];
      if AtMostOnce(moves, id) {
        forall m | m in moves' ensures m == NULL_PROXY || m in live - {id} {
          var j :| 0 <= j < |moves'| && moves'[j] == m;
          if j != i { assert moves[j] == m && m in moves; }
        }
      }
      if Live(moves', live - {id}) {
        forall j | 0 <= j < |moves| && j != i ensures moves[j] != id {
          assert moves'[j] == moves[j] && moves'[j] in moves';
        }
      }
    }
  }
}
