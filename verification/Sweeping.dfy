// Sweeping: which objects are dead, what one sweep of a list does, and the
// invariants that tie the lists of all objects to the heap.
module Sweeping {
  import opened Heap
  import opened Marking

  // An object the next sweep over it removes: white of the other shade, and not fixed.
  predicate Doomed(x: Object, w: bool) { x.color == White(!w) && !x.fixed }

  ghost predicate Alive(h: Objects, w: bool, v: Value) {
    v.Ref? ==> v.id in h && !Doomed(h[v.id], w)
  }

  // Whatever is not doomed refers to nothing doomed, and the roots are not doomed.
  ghost predicate Closed(h: Objects, roots: seq<Value>, w: bool) {
    && (forall r :: Ref(r) in roots ==> r in h && !Doomed(h[r], w))
    && (forall o, r :: o in h && !Doomed(h[o], w) && Refers(h[o].body, r) ==> r in h && !Doomed(h[r], w))
  }

  lemma ReachableAlive(h: Objects, roots: seq<Value>, w: bool, o: Id)
    requires Closed(h, roots, w) && Reachable(h, roots, o)
    ensures o in h && !Doomed(h[o], w)
  {
    var path :| Follow(h, roots, false, path) == Ref(o);
    FollowAlive(h, roots, w, path);
  }

  lemma FollowAlive(h: Objects, roots: seq<Value>, w: bool, path: seq<nat>)
    requires Closed(h, roots, w)
    ensures Alive(h, w, Follow(h, roots, false, path))
  {
    var c := iset o | o in h && !Doomed(h[o], w);
    forall o, r | o in c && o in h && Ref(r) in Marks(h[o].body, STRONG) ensures r in c {
      assert Refers(h[o].body, r);
    }
    FollowWithin(h, roots, false, path, c);
  }

  // Every object is in one list: strings in the bucket of their hash, all others under rootgc.
  ghost predicate Chained(h: Objects, strt: seq<seq<Id>>, rootgc: seq<Id>) {
    RootsChained(h, rootgc) && StringsChained(h, strt)
  }

  ghost predicate RootsChained(h: Objects, rootgc: seq<Id>) {
    Distinct(rootgc) && forall o :: o in rootgc <==> o in h && !h[o].body.StringBody?
  }

  ghost predicate StringsChained(h: Objects, strt: seq<seq<Id>>) {
    && |strt| > 0 && (forall b :: 0 <= b < |strt| ==> Distinct(strt[b]))
    && (forall b, o :: 0 <= b < |strt| ==>
      (o in strt[b] <==> o in h && h[o].body.StringBody? && h[o].body.hash % |strt| == b))
  }

  // The lists have been swept up to bucket n and up to place p of rootgc.
  ghost predicate SweptTo(h: Objects, w: bool, strt: seq<seq<Id>>, n: nat, rootgc: seq<Id>, p: nat) {
    && n <= |strt| && p <= |rootgc|
    && (forall b, o :: 0 <= b < n && o in strt[b] ==> o in h && h[o].color == White(w))
    && (forall i :: 0 <= i < p ==> rootgc[i] in h && h[rootgc[i]].color == White(w))
  }

  function Survivors(h: Objects, w: bool, xs: seq<Id>): seq<Id>
    requires forall x :: x in xs ==> x in h
  {
    if xs == [] then []
    else
      var init, last := xs[..|xs| - 1], xs[|xs| - 1];
      Survivors(h, w, init) + if Doomed(h[last], w) then [] else [last]
  }

  lemma {:induction false} SurvivorsAre(h: Objects, w: bool, xs: seq<Id>)
    requires forall x :: x in xs ==> x in h
    ensures forall x :: x in Survivors(h, w, xs) <==> x in xs && !Doomed(h[x], w)
    ensures Distinct(xs) ==> Distinct(Survivors(h, w, xs))
  {
    if xs != [] {
      var init, last := xs[..|xs| - 1], xs[|xs| - 1];
      assert xs == init + [last];
      SurvivorsAre(h, w, init);
      if Distinct(xs) {
        assert last !in init;
        DistinctConcat(Survivors(h, w, init), if Doomed(h[last], w) then [] else [last]);
      }
    }
  }

  // The objects of xs have been swept: the doomed are gone, the others are white again.
  ghost predicate Swept(h: Objects, w: bool, xs: seq<Id>, h': Objects) {
    && (forall o :: o in h' <==> o in h && !(o in xs && Doomed(h[o], w)))
    && (forall o :: o in h' ==> h'[o] == if o in xs then h[o].(color := White(w)) else h[o])
  }

  // Sweeping removes nothing but doomed objects, and dooms none.
  ghost predicate Shrunk(h: Objects, w: bool, h': Objects) {
    && (forall o :: o in h' ==> o in h && h'[o].body == h[o].body && h'[o].fixed == h[o].fixed)
    && (forall o :: o in h && !Doomed(h[o], w) ==> o in h' && !Doomed(h'[o], w))
    && (forall o :: o in h' && Doomed(h[o], w) ==> Doomed(h'[o], w))
  }

  lemma SweptMore(h: Objects, w: bool, xs: seq<Id>, h1: Objects, x: Id, h2: Objects)
    requires Swept(h, w, xs, h1) && x in h && x !in xs
    requires h2 == if Doomed(h[x], w) then h1 - {x} else Colored(h1, x, White(w))
    ensures Swept(h, w, xs + [x], h2)
  {
  }

  lemma SweptShrinks(h: Objects, w: bool, xs: seq<Id>, h': Objects, roots: seq<Value>)
    requires Swept(h, w, xs, h')
    ensures Shrunk(h, w, h')
    ensures Closed(h, roots, w) ==> Closed(h', roots, w)
  {
  }

  lemma BucketSwept(h: Objects, w: bool, strt: seq<seq<Id>>, rootgc: seq<Id>, b: nat, h': Objects)
    requires Chained(h, strt, rootgc) && b < |strt| && Swept(h, w, strt[b], h') && SweptTo(h, w, strt, b, rootgc, 0)
    ensures (forall x :: x in strt[b] ==> x in h)
    ensures var strt' := strt[b := Survivors(h, w, strt[b])];
            Chained(h', strt', rootgc) && SweptTo(h', w, strt', b + 1, rootgc, 0)
  {
    hide RootsChained, Distinct, Survivors;
    var xs := strt[b];
    forall x | x in xs ensures x in h && h[x].body.StringBody? {}
    SurvivorsAre(h, w, xs);
    RootsUntouched(h, w, xs, h', rootgc);
    var strt' := strt[b := Survivors(h, w, xs)];
    forall i, o | 0 <= i < |strt'|
      ensures o in strt'[i] <==> o in h' && h'[o].body.StringBody? && h'[o].body.hash % |strt'| == i
    {
      assert o in strt[i] <==> o in h && h[o].body.StringBody? && h[o].body.hash % |strt| == i;
    }
    assert StringsChained(h', strt');
  }

  lemma RootsUntouched(h: Objects, w: bool, xs: seq<Id>, h': Objects, rootgc: seq<Id>)
    requires RootsChained(h, rootgc) && Swept(h, w, xs, h') && forall x :: x in xs ==> x in h && h[x].body.StringBody?
    ensures RootsChained(h', rootgc)
  {
    hide Distinct;
  }

  lemma StringsUntouched(h: Objects, w: bool, xs: seq<Id>, h': Objects, strt: seq<seq<Id>>)
    requires StringsChained(h, strt) && Swept(h, w, xs, h') && forall x :: x in xs ==> x in h && !h[x].body.StringBody?
    ensures StringsChained(h', strt)
  {
    hide Distinct;
  }

  // n objects of rootgc swept from place p on.
  lemma RootsSwept(h: Objects, w: bool, strt: seq<seq<Id>>, rootgc: seq<Id>, p: nat, n: nat, h': Objects)
    requires Chained(h, strt, rootgc) && p + n <= |rootgc| && SweptTo(h, w, strt, |strt|, rootgc, p)
    requires Swept(h, w, rootgc[p..p + n], h')
    ensures forall x :: x in rootgc[p..p + n] ==> x in h
    ensures var kept := Survivors(h, w, rootgc[p..p + n]);
            var rootgc' := rootgc[..p] + kept + rootgc[p + n..];
            Chained(h', strt, rootgc') && SweptTo(h', w, strt, |strt|, rootgc', p + |kept|)
  {
    hide StringsChained, RootsChained, Distinct, SweptTo, Survivors;
    RootsHold(h, rootgc);
    var a, xs, z := rootgc[..p], rootgc[p..p + n], rootgc[p + n..];
    assert rootgc == a + xs + z;
    assert forall x :: x in xs ==> x in rootgc;
    SurvivorsAre(h, w, xs);
    var kept := Survivors(h, w, xs);
    DistinctPieces(a, xs, z, kept);
    StringsUntouched(h, w, xs, h', strt);
    PiecesChained(h, w, a, xs, z, h', kept);
    BucketsHold(h, strt);
    PrefixSwept(h, w, strt, rootgc, p, xs, h', a + kept + z, kept);
  }

  lemma PiecesChained(h: Objects, w: bool, a: seq<Id>, xs: seq<Id>, z: seq<Id>, h': Objects, kept: seq<Id>)
    requires RootsChained(h, a + xs + z) && Swept(h, w, xs, h') && Distinct(a + kept + z)
    requires forall x :: x in xs ==> x in h && x !in a && x !in z
    requires forall x :: x in kept <==> x in xs && !Doomed(h[x], w)
    ensures RootsChained(h', a + kept + z)
  {
    hide Distinct;
    forall o ensures o in a + kept + z <==> o in h' && !h'[o].body.StringBody? {
      assert o in a + xs + z <==> o in a || o in xs || o in z;
    }
  }

  lemma RootsHold(h: Objects, rootgc: seq<Id>)
    requires RootsChained(h, rootgc)
    ensures Distinct(rootgc) && forall o :: o in rootgc ==> o in h && !h[o].body.StringBody?
  {
  }

  lemma BucketsHold(h: Objects, strt: seq<seq<Id>>)
    requires StringsChained(h, strt)
    ensures forall b, o :: 0 <= b < |strt| && o in strt[b] ==> o in h && h[o].body.StringBody?
  {
  }

  lemma DistinctPieces(a: seq<Id>, xs: seq<Id>, z: seq<Id>, kept: seq<Id>)
    requires Distinct(a + xs + z) && (Distinct(xs) ==> Distinct(kept)) && forall x :: x in kept ==> x in xs
    ensures Distinct(xs) && Distinct(a + kept + z) && forall x :: x in xs ==> x !in a && x !in z
  {
    var s := a + xs + z;
    forall i, j | 0 <= i < j < |a| ensures a[i] != a[j] { assert s[i] == a[i] && s[j] == a[j]; }
    forall i, j | 0 <= i < j < |xs| ensures xs[i] != xs[j] { assert s[|a| + i] == xs[i] && s[|a| + j] == xs[j]; }
    forall i, j | 0 <= i < j < |z| ensures z[i] != z[j] {
      assert s[|a| + |xs| + i] == z[i] && s[|a| + |xs| + j] == z[j];
    }
    forall i, j | 0 <= i < |a| && 0 <= j < |xs| ensures a[i] != xs[j] { assert s[i] == a[i] && s[|a| + j] == xs[j]; }
    forall i, j | 0 <= i < |a| && 0 <= j < |z| ensures a[i] != z[j] {
      assert s[i] == a[i] && s[|a| + |xs| + j] == z[j];
    }
    forall i, j | 0 <= i < |xs| && 0 <= j < |z| ensures xs[i] != z[j] {
      assert s[|a| + i] == xs[i] && s[|a| + |xs| + j] == z[j];
    }
    assert Distinct(a) && Distinct(xs) && Distinct(z);
    DistinctConcat(a, kept);
    DistinctConcat(a + kept, z);
  }

  lemma PrefixSwept(h: Objects, w: bool, strt: seq<seq<Id>>, rootgc: seq<Id>, p: nat, xs: seq<Id>, h': Objects,
                    rootgc': seq<Id>, kept: seq<Id>)
    requires SweptTo(h, w, strt, |strt|, rootgc, p) && Swept(h, w, xs, h') && p + |kept| <= |rootgc'|
    requires rootgc'[..p + |kept|] == rootgc[..p] + kept
    requires forall x :: x in xs ==> x !in rootgc[..p] && x in h && !h[x].body.StringBody?
    requires forall x :: x in kept ==> x in xs && !Doomed(h[x], w)
    requires forall b, o :: 0 <= b < |strt| && o in strt[b] ==> o in h && h[o].body.StringBody?
    ensures SweptTo(h', w, strt, |strt|, rootgc', p + |kept|)
  {
    forall i | 0 <= i < p + |kept| ensures rootgc'[i] in h' && h'[rootgc'[i]].color == White(w) {
      assert rootgc'[i] == rootgc'[..p + |kept|][i];
      if i < p { assert rootgc'[i] == rootgc[i] == rootgc[..p][i]; } else { assert rootgc'[i] == kept[i - p]; }
    }
  }

  // ---------- the other phases ----------

  // Nothing has the other white before the atomic step, so nothing is doomed.
  lemma ClosedAllocated(h: Objects, roots: seq<Value>, w: bool)
    requires forall o :: o in h ==> h[o].color != White(!w)
    ensures Closed(h, roots, w) <==> Allocated(h) && forall r :: Ref(r) in roots ==> r in h
  {
  }

  lemma ClosedStays(h: Objects, h': Objects, roots: seq<Value>, w: bool)
    requires Progress(h, h') && Closed(h, roots, w)
    requires (forall o :: o in h ==> h[o].color != White(!w)) && (forall o :: o in h' ==> h'[o].color != White(!w))
    ensures Closed(h', roots, w)
  {
    forall o, r | o in h' && Refers(h'[o].body, r) ensures r in h' { assert Refers(h[o].body, r); }
  }

  // Only strings and the main thread are fixed.
  ghost predicate FixedOk(h: Objects, mainthread: Id) {
    forall o :: o in h && h[o].fixed ==> h[o].body.StringBody? || o == mainthread
  }

  // The flip of the current white dooms exactly what is still white and not fixed.
  lemma FlippedClosed(h: Objects, roots: seq<Value>, w: bool, mainthread: Id)
    requires NonwhiteClosed(h)
    requires RootsMarked(h, roots) && Ref(mainthread) in roots && FixedOk(h, mainthread)
    requires forall o :: o in h ==> h[o].color != White(w)
    ensures Closed(h, roots, w)
  {
    forall o, r | o in h && !Doomed(h[o], w) && Refers(h[o].body, r) ensures r in h && !Doomed(h[r], w) {
      assert !h[o].body.StringBody?;
    }
  }

  // Objects that stay what they are stay in their lists.
  lemma ChainedStays(h: Objects, h': Objects, strt: seq<seq<Id>>, rootgc: seq<Id>, mainthread: Id)
    requires Chained(h, strt, rootgc) && h'.Keys == h.Keys && FixedOk(h, mainthread)
    requires forall o :: o in h ==> SameKind(h[o].body, h'[o].body) && h'[o].fixed == h[o].fixed
    ensures Chained(h', strt, rootgc) && FixedOk(h', mainthread)
  {
    hide Distinct;
  }

  // ---------- what the mutator keeps ----------

  lemma WriteClosed(h: Objects, roots: seq<Value>, w: bool, o: Id, b: Body, v: Value)
    requires Closed(h, roots, w) && o in h && !Doomed(h[o], w) && Stores(h[o].body, b, v) && Alive(h, w, v)
    ensures Closed(Written(h, o, b), roots, w)
  {
    var h' := Written(h, o, b);
    forall x, r | x in h' && !Doomed(h'[x], w) && Refers(h'[x].body, r) ensures r in h' && !Doomed(h'[r], w) {
      assert x == o || Refers(h[x].body, r);
    }
  }

  // Another color for o, but not the other white.
  lemma RecolorClosed(h: Objects, roots: seq<Value>, w: bool, o: Id, color: Color)
    requires Closed(h, roots, w) && o in h && (!Doomed(h[o], w) || h[o].body.StringBody?) && color != White(!w)
    ensures Closed(Colored(h, o, color), roots, w)
  {
  }

  lemma NewClosed(h: Objects, roots: seq<Value>, w: bool, o: Id, x: Object)
    requires Closed(h, roots, w) && o !in h && x.color == White(w)
             && forall r :: Refers(x.body, r) ==> Alive(h, w, Ref(r))
    ensures Closed(h[o := x], roots, w)
  {
    forall r | Refers(x.body, r) ensures r in h && !Doomed(h[r], w) { assert Alive(h, w, Ref(r)); }
  }

  lemma NewRoot(h: Objects, strt: seq<seq<Id>>, rootgc: seq<Id>, o: Id, x: Object)
    requires Chained(h, strt, rootgc) && o !in h && !x.body.StringBody?
    ensures Chained(h[o := x], strt, [o] + rootgc)
  {
  }

  lemma NewInBucket(h: Objects, strt: seq<seq<Id>>, rootgc: seq<Id>, o: Id, x: Object)
    requires Chained(h, strt, rootgc) && o !in h && x.body.StringBody?
    ensures var b := x.body.hash % |strt|; Chained(h[o := x], strt[b := [o] + strt[b]], rootgc)
  {
    var b := x.body.hash % |strt|;
    var strt' := strt[b := [o] + strt[b]];
    DistinctConcat([o], strt[b]);
    forall i, y | 0 <= i < |strt'|
      ensures y in strt'[i] <==>
                y in h[o := x] && h[o := x][y].body.StringBody? && h[o := x][y].body.hash % |strt'| == i
    {
      assert y in strt[i] <==> y in h && h[y].body.StringBody? && h[y].body.hash % |strt| == i;
    }
  }


  lemma NewRootSwept(h: Objects, w: bool, strt: seq<seq<Id>>, n: nat, rootgc: seq<Id>, p: nat, o: Id, x: Object)
    requires SweptTo(h, w, strt, n, rootgc, p) && x.color == White(w)
    ensures SweptTo(h[o := x], w, strt, n, [o] + rootgc, if p > 0 then p + 1 else 0)
  {
  }

  lemma NewStringSwept(h: Objects, w: bool, strt: seq<seq<Id>>, n: nat, rootgc: seq<Id>, p: nat, o: Id, x: Object,
                       b: nat)
    requires SweptTo(h, w, strt, n, rootgc, p) && x.color == White(w) && b < |strt|
    ensures SweptTo(h[o := x], w, strt[b := [o] + strt[b]], n, rootgc, p)
  {
  }

  lemma SomeBucket(h: Objects, strt: seq<seq<Id>>, rootgc: seq<Id>)
    requires Chained(h, strt, rootgc)
    ensures |strt| > 0
  {
  }
}
