// Objects that nothing outside them refers to, and how they are lost.
module Garbage {
  import opened Heap
  import opened Marking
  import opened WeakTables
  import opened Sweeping

  // Nothing outside d refers to an object of d, not even weakly.
  ghost predicate Walled(h: Objects, d: iset<Id>) {
    forall o, r :: o in h && o !in d && Refers(h[o].body, r) ==> r !in d
  }

  ghost predicate RootsOutside(roots: seq<Value>, d: iset<Id>) { forall r :: Ref(r) in roots ==> r !in d }

  // Strings can be found again in the string table, and fixed objects stay.
  ghost predicate Ordinary(h: Objects, d: iset<Id>) {
    forall o :: o in d && o in h ==> !h[o].body.StringBody? && !h[o].fixed
  }

  ghost predicate StillWhite(h: Objects, d: iset<Id>) { forall o :: o in d && o in h ==> h[o].color.White? }

  ghost predicate AllDoomed(h: Objects, w: bool, d: iset<Id>) { forall o :: o in d && o in h ==> Doomed(h[o], w) }

  ghost predicate Lost(h: Objects, d: iset<Id>) { forall o :: o in d ==> o !in h }

  // The white objects of d keep their shade.
  ghost predicate Spared(h: Objects, h': Objects, d: iset<Id>) {
    forall o :: o in d && o in h && h[o].color.White? ==> o in h' && h'[o].color == h[o].color
  }

  ghost function Rest(d: iset<Id>): iset<Id> { iset o: Id | o !in d }

  // The rest bounds what a mark phase may mark.
  lemma RestBounds(h: Objects, roots: seq<Value>, d: iset<Id>)
    requires Walled(h, d) && StillWhite(h, d) && RootsOutside(roots, d) && forall r :: Ref(r) in roots ==> r in h
    ensures Encloses(h, Rest(d)) && Covered(h, Rest(d)) && RootsIn(h, roots, Rest(d))
  {
    RestEncloses(h, d);
  }

  lemma RestEncloses(h: Objects, d: iset<Id>)
    requires Walled(h, d)
    ensures Encloses(h, Rest(d))
  {
    forall o, r {:trigger Ref(r) in MarkedBy(h, h[o].body)} | o in Rest(d) && o in h && Ref(r) in MarkedBy(h, h[o].body)
      ensures r in Rest(d)
    {
      StrongRefers(h, h[o].body, r);
    }
  }

  // Nothing in d can be reached.
  lemma NotReached(h: Objects, roots: seq<Value>, d: iset<Id>, strong: bool, path: seq<nat>)
    requires Walled(h, d) && RootsOutside(roots, d)
    ensures var v := Follow(h, roots, strong, path); v.Ref? ==> v.id !in d
  {
    forall o, r | o in Rest(d) && o in h
         && Ref(r) in (if strong then MarkedBy(h, h[o].body) else Marks(h[o].body, STRONG))
      ensures r in Rest(d)
    {
      if strong { StrongRefers(h, h[o].body, r); }
      assert Refers(h[o].body, r);
    }
    FollowWithin(h, roots, strong, path, Rest(d));
  }

  // What cannot be reached, and is neither a string nor fixed.
  ghost function Unreachable(h: Objects, roots: seq<Value>): iset<Id> {
    iset o | o in h && !Reachable(h, roots, o) && !h[o].body.StringBody? && !h[o].fixed
  }

  lemma UnreachableIs(h: Objects, roots: seq<Value>)
    ensures forall o :: o in h && !Reachable(h, roots, o) && !h[o].body.StringBody? && !h[o].fixed ==>
              o in Unreachable(h, roots)
  {
  }

  lemma UnreachableWalled(h: Objects, roots: seq<Value>, mainthread: Id)
    requires FixedOk(h, mainthread) && Ref(mainthread) in roots
    ensures Walled(h, Unreachable(h, roots)) && RootsOutside(roots, Unreachable(h, roots))
            && Ordinary(h, Unreachable(h, roots))
  {
    forall r | Ref(r) in roots ensures Reachable(h, roots, r) {
      var k :| 0 <= k < |roots| && roots[k] == Ref(r);
      assert Follow(h, roots, false, [k]) == Ref(r);
    }
    forall o, r | o in h && o !in Unreachable(h, roots) && Refers(h[o].body, r) ensures r !in Unreachable(h, roots) {
      assert Reachable(h, roots, o);
      var path :| Follow(h, roots, false, path) == Ref(o);
      FollowAnyStep(h, roots, path, o, r);
    }
  }

  lemma NothingDead(h: Objects, roots: seq<Value>, w: bool)
    ensures Walled(h, iset{}) && RootsOutside(roots, iset{}) && Ordinary(h, iset{}) && StillWhite(h, iset{})
    ensures AllDoomed(h, w, iset{}) && Lost(h, iset{})
  {
  }

  // ---------- the steps of the collector ----------

  lemma ProgressSpares(h: Objects, h': Objects, d: iset<Id>)
    requires Progress(h, h') && Walled(h, d) && Ordinary(h, d) && Covered(h', Rest(d))
    ensures Walled(h', d) && Ordinary(h', d) && StillWhite(h', d)
  {
  }

  lemma KeptRefers(h: Objects, b: Body, bits: Mode, r: Id)
    requires b.TableBody? && Refers(KeptBody(h, b, bits), r)
    ensures Refers(b, r)
  {
    hide Reversed, NodeMarks, KeptValue, KeptNode;
    var b' := KeptBody(h, b, bits);
    KeptNodesRefer(h, b.nodes, r);
    KeptItemsRefer(h, b.items, r);
    assert Marks(b', STRONG) == [b.metatable] + Reversed(b'.items) + NodeMarks(b'.nodes, STRONG);
    assert Marks(b, STRONG) == [b.metatable] + Reversed(b.items) + NodeMarks(b.nodes, STRONG);
  }

  lemma KeptNodesRefer(h: Objects, ns: seq<Node>, r: Id)
    ensures Ref(r) in NodeMarks(seq(|ns|, i requires 0 <= i < |ns| => KeptNode(h, ns[i])), STRONG) ==>
              Ref(r) in NodeMarks(ns, STRONG)
  {
    var ns' := seq(|ns|, i requires 0 <= i < |ns| => KeptNode(h, ns[i]));
    if Ref(r) in NodeMarks(ns', STRONG) {
      var j :| 0 <= j < 2 * |ns'| && NodeMarks(ns', STRONG)[j] == Ref(r);
      assert ns'[|ns| - 1 - j / 2] == KeptNode(h, ns[|ns| - 1 - j / 2]);
      assert NodeMarks(ns, STRONG)[j] == Ref(r);
    }
  }

  lemma KeptItemsRefer(h: Objects, vs: seq<Value>, r: Id)
    ensures Ref(r) in Reversed(seq(|vs|, i requires 0 <= i < |vs| => KeptValue(h, vs[i]))) ==> Ref(r) in Reversed(vs)
  {
    var vs' := seq(|vs|, i requires 0 <= i < |vs| => KeptValue(h, vs[i]));
    if Ref(r) in Reversed(vs') {
      var j :| 0 <= j < |vs'| && Reversed(vs')[j] == Ref(r);
      assert Reversed(vs)[j] == Ref(r);
    }
  }

  // The atomic step dooms what it did not mark.
  lemma AtomicDooms(h: Objects, hm: Objects, ts: seq<Id>, h': Objects, w: bool, d: iset<Id>)
    requires Progress(h, hm) && TablesCleared(hm, ts, h') && Covered(hm, Rest(d))
    requires Walled(h, d) && Ordinary(h, d) && forall o :: o in h' ==> h'[o].color != White(w)
    ensures Walled(h', d) && Ordinary(h', d) && AllDoomed(h', w, d)
  {
    forall o, r | o in h' && o !in d && Refers(h'[o].body, r) ensures r !in d {
      assert ClearedAt(hm, ts, h', o);
      if o in ts { KeptRefers(hm, hm[o].body, hm[o].weak, r); }
    }
    forall o | o in d && o in h' ensures !h'[o].body.StringBody? && !h'[o].fixed && Doomed(h'[o], w) {
      assert ClearedAt(hm, ts, h', o);
    }
  }

  lemma ShrunkStays(h: Objects, w: bool, h': Objects, d: iset<Id>)
    requires Shrunk(h, w, h') && Walled(h, d) && Ordinary(h, d)
    ensures Walled(h', d) && Ordinary(h', d) && (AllDoomed(h, w, d) ==> AllDoomed(h', w, d))
  {
  }

  lemma WhiteLost(h: Objects, w: bool, d: iset<Id>)
    requires AllDoomed(h, w, d) && forall o :: o in h ==> h[o].color == White(w)
    ensures Lost(h, d)
  {
  }

  // ---------- the steps of the mutator ----------

  lemma WrittenWalled(h: Objects, o: Id, b: Body, v: Value, h': Objects, d: iset<Id>)
    requires o in h && o !in d && Stores(h[o].body, b, v) && (v.Ref? ==> v.id !in d)
    requires h'.Keys == h.Keys
             && forall x :: x in h ==> h'[x].body == (if x == o then b else h[x].body) && h'[x].fixed == h[x].fixed
    requires Walled(h, d) && Ordinary(h, d)
    ensures Walled(h', d) && Ordinary(h', d)
  {
  }

  lemma SparedStays(h: Objects, h': Objects, w: bool, d: iset<Id>)
    requires Spared(h, h', d) && h'.Keys == h.Keys && forall x :: x in h ==> h'[x].fixed == h[x].fixed
    ensures StillWhite(h, d) ==> StillWhite(h', d)
    ensures AllDoomed(h, w, d) ==> AllDoomed(h', w, d)
    ensures Lost(h, d) ==> Lost(h', d)
  {
  }

  // A new object; what had its address is lost.
  lemma NewOutside(h: Objects, o: Id, x: Object, w: bool, d: iset<Id>)
    requires o !in h && forall r :: Refers(x.body, r) ==> r !in d
    requires Walled(h, d) && Ordinary(h, d)
    ensures var h', d' := h[o := x], d - iset{o};
            && Walled(h', d') && Ordinary(h', d') && (StillWhite(h, d) ==> StillWhite(h', d'))
            && (AllDoomed(h, w, d) ==> AllDoomed(h', w, d')) && (Lost(h, d) ==> Lost(h', d'))
  {
  }

  // What a whole collection leaves is out of d.
  lemma CollectedLost(h: Objects, roots: seq<Value>, hm: Objects, ts: seq<Id>, h': Objects, d: iset<Id>)
    requires Walled(h, d) && RootsOutside(roots, d) && Ordinary(h, d)
    requires forall o :: o in hm ==> o in h && hm[o].body == h[o].body && hm[o].fixed == h[o].fixed
    requires forall o :: o in hm && !hm[o].color.White? ==> StronglyReachable(h, roots, o)
    requires forall o :: o in h' ==> o in hm && (!hm[o].color.White? || hm[o].fixed || StringSeen(hm, ts, o))
    requires forall o :: o in h' ==> (o in ts ==> hm[o].body.TableBody?)
                                     && h'[o].body ==
                                       if o in ts then KeptBody(hm, hm[o].body, hm[o].weak) else hm[o].body
    ensures Lost(h', d) && Walled(h', d)
  {
    forall o | o in d && o in h' ensures false {
      if !hm[o].color.White? {
        var path :| Follow(h, roots, true, path) == Ref(o);
        NotReached(h, roots, d, true, path);
      }
    }
    forall o, r | o in h' && o !in d && Refers(h'[o].body, r) ensures r !in d {
      if o in ts { KeptRefers(hm, hm[o].body, hm[o].weak, r); }
    }
  }
}
