// The hash part of a table: a chained scatter table with Brent's variation.
// Each node belongs to a chain and has a rank in it; ranks are reals so that a
// node can always be put between two others.
module Chains {
  datatype Key = NilKey | Number(n: real) | NaN | String(id: nat, hash: nat) | Boolean(b: bool) | Pointer(address: nat)

  datatype Value = Nil | Data(id: int)

  datatype Node = Node(key: Key, val: Value, next: int)

  const NULL := -1

  // What the bits of a number add up to.
  type NumHash = Key -> nat

  function HashMod(n: nat, size: nat): nat
    requires size > 0
  {
    n % (if size == 1 then 1 else size - 1)
  }

  function MainPosition(nh: NumHash, size: nat, key: Key): (p: nat)
    requires size > 0
    ensures p < size
  {
    match key
    case NilKey => 0
    case Number(n) => if n == 0.0 then 0 else HashMod(nh(key), size)
    case NaN => HashMod(nh(key), size)
    case String(_, h) => h % size
    case Boolean(b) => (if b then 1 else 0) % size
    case Pointer(a) => HashMod(a, size)
  }

  predicate RawEqual(a: Key, b: Key) { a == b && !a.NaN? }

  // Where nodes are in their chains.
  datatype Place = Place(chain: int, rank: real)

  predicate Before(a: Place, b: Place) { a.chain == b.chain && a.rank < b.rank }

  predicate UpTo(a: Place, b: Place) { a.chain == b.chain && a.rank <= b.rank }

  // Links lead to the next node of the chain; a node without one ends it.
  ghost predicate Linked(nodes: seq<Node>, at: seq<Place>) {
    && |at| == |nodes| > 0
    && (forall i, j :: 0 <= i < |at| && 0 <= j < |at| && i != j ==> at[i] != at[j])
    && (forall i :: 0 <= i < |nodes| ==> LinkedAt(nodes, at, i))
  }

  ghost predicate LinkedAt(nodes: seq<Node>, at: seq<Place>, i: nat)
    requires i < |nodes| == |at|
  {
    var n := nodes[i].next;
    if n == NULL then forall j :: 0 <= j < |at| ==> !Before(at[i], at[j])
    else
      && 0 <= n < |nodes| && Before(at[i], at[n])
      && forall j :: 0 <= j < |at| && Before(at[i], at[j]) ==> UpTo(at[n], at[j])
  }

  lemma OnePredecessor(nodes: seq<Node>, at: seq<Place>, i: nat, j: nat)
    requires Linked(nodes, at) && i < |nodes| && j < |nodes| && nodes[i].next == nodes[j].next != NULL
    ensures i == j
  {
    assert LinkedAt(nodes, at, i) && LinkedAt(nodes, at, j);
    assert i != j ==> at[i] != at[j];
  }

  // A key is on the chain of its main position, at it or behind it, and the
  // node at that position holds a key that belongs there.
  ghost predicate KeysPlaced(nh: NumHash, nodes: seq<Node>, at: seq<Place>) {
    && |at| == |nodes| > 0 && KeysApart(nodes) && FreeAlone(nodes, at)
    && (forall i :: 0 <= i < |nodes| && !nodes[i].key.NilKey? ==> KeyPlaced(nh, nodes, at, i))
  }

  ghost predicate KeysApart(nodes: seq<Node>) {
    forall i, j :: 0 <= i < |nodes| && 0 <= j < |nodes| && i != j && !nodes[i].key.NilKey? ==>
        nodes[i].key != nodes[j].key
  }

  // Free nodes are in no other chain, and have no value.
  ghost predicate FreeAlone(nodes: seq<Node>, at: seq<Place>)
    requires |at| == |nodes|
  {
    && (forall i, j :: 0 <= i < |nodes| && 0 <= j < |nodes| && i != j && nodes[i].key.NilKey? ==>
      at[i].chain != at[j].chain)
    && (forall i :: 0 <= i < |nodes| && nodes[i].key.NilKey? ==> nodes[i].val.Nil?)
  }

  ghost predicate KeyPlaced(nh: NumHash, nodes: seq<Node>, at: seq<Place>, i: nat)
    requires i < |nodes| == |at|
  {
    var m := MainPosition(nh, |nodes|, nodes[i].key);
    && UpTo(at[m], at[i]) && !nodes[m].key.NilKey? && MainPosition(nh, |nodes|, nodes[m].key) == m && !nodes[i].key.NaN?
  }

  // ---------- insertion ----------

  // A key put in its own main position, whose entry is empty. The links stay.
  lemma Reuse(nh: NumHash, nodes: seq<Node>, at: seq<Place>, key: Key, nodes': seq<Node>)
    requires Linked(nodes, at) && KeysPlaced(nh, nodes, at)
    requires !key.NilKey? && !key.NaN? && forall i :: 0 <= i < |nodes| ==> nodes[i].key != key
    requires var m := MainPosition(nh, |nodes|, key);
             nodes[m].val.Nil? && nodes' == nodes[m := nodes[m].(key := key)]
    ensures Linked(nodes', at) && KeysPlaced(nh, nodes', at)
  {
    var m := MainPosition(nh, |nodes|, key);
    forall i | 0 <= i < |nodes'| ensures LinkedAt(nodes', at, i) { assert LinkedAt(nodes, at, i); }
    forall i | 0 <= i < |nodes'| && !nodes'[i].key.NilKey? ensures KeyPlaced(nh, nodes', at, i) {
      if i != m { assert KeyPlaced(nh, nodes, at, i); }
    }
  }

  // The colliding node m does not belong in its place: it moves to the free
  // node f, behind its predecessor p, and the new key starts a chain at m.
  lemma Displace(nh: NumHash, nodes: seq<Node>, at: seq<Place>, key: Key, p: nat, f: nat, unused: int,
                 nodes': seq<Node>, at': seq<Place>)
    requires Linked(nodes, at) && KeysPlaced(nh, nodes, at)
    requires !key.NilKey? && !key.NaN? && forall i :: 0 <= i < |nodes| ==> nodes[i].key != key
    requires f < |nodes| && nodes[f].key.NilKey? && p < |nodes| && forall i :: 0 <= i < |at| ==> at[i].chain != unused
    requires var m := MainPosition(nh, |nodes|, key);
             && !nodes[m].key.NilKey? && MainPosition(nh, |nodes|, nodes[m].key) != m && nodes[p].next == m
             && nodes' == nodes[p := nodes[p].(next := f)][f := nodes[m]][m := Node(key, Nil, NULL)]
             && at' == at[f := at[m]][m := Place(unused, 0.0)]
    ensures Linked(nodes', at') && KeysPlaced(nh, nodes', at')
  {
    var m := MainPosition(nh, |nodes|, key);
    assert LinkedAt(nodes, at, p);
    assert m != p && f != m && f != p;
    assert Linked(nodes', at') by {
      forall i | 0 <= i < |nodes'| ensures LinkedAt(nodes', at', i) {
        DisplaceLink(nodes, at, m, p, f, unused, nodes', at', i);
      }
      hide LinkedAt;
      forall i, j | 0 <= i < |at'| && 0 <= j < |at'| && i != j ensures at'[i] != at'[j] {
        assert at[if i == f then m else i] != at[if j == f then m else j] || i == m || j == m;
      }
    }
    DisplaceKeys(nh, nodes, at, key, p, f, unused, nodes', at');
  }

  lemma DisplaceKeys(nh: NumHash, nodes: seq<Node>, at: seq<Place>, key: Key, p: nat, f: nat, unused: int,
                     nodes': seq<Node>, at': seq<Place>)
    requires KeysPlaced(nh, nodes, at) && f < |nodes| && nodes[f].key.NilKey? && p < |nodes| && p != f
    requires !key.NilKey? && !key.NaN? && forall i :: 0 <= i < |nodes| ==> nodes[i].key != key && at[i].chain != unused
    requires var m := MainPosition(nh, |nodes|, key);
             && m != p && !nodes[m].key.NilKey? && MainPosition(nh, |nodes|, nodes[m].key) != m
             && nodes' == nodes[p := nodes[p].(next := f)][f := nodes[m]][m := Node(key, Nil, NULL)]
             && at' == at[f := at[m]][m := Place(unused, 0.0)]
    ensures KeysPlaced(nh, nodes', at')
  {
    hide MainPosition;
    var m := MainPosition(nh, |nodes|, key);
    hide KeysApart, FreeAlone;
    forall i | 0 <= i < |nodes'| && !nodes'[i].key.NilKey? ensures KeyPlaced(nh, nodes', at', i) {
      assert KeyPlaced(nh, nodes, at, if i == f then m else i);
    }
    DisplaceApart(nodes, key, m, p, f, nodes');
    DisplaceFree(nodes, at, m, p, f, unused, nodes', at');
  }

  lemma DisplaceApart(nodes: seq<Node>, key: Key, m: nat, p: nat, f: nat, nodes': seq<Node>)
    requires KeysApart(nodes) && m < |nodes| == |nodes'| && p < |nodes| && f < |nodes| && m != f && nodes[f].key.NilKey?
    requires nodes'[m].key == key && nodes'[f].key == nodes[m].key
             && forall i :: 0 <= i < |nodes| ==> nodes[i].key != key
    requires forall i :: 0 <= i < |nodes| && i != m && i != f ==> nodes'[i].key == nodes[i].key
    ensures KeysApart(nodes')
  {
  }

  lemma DisplaceFree(nodes: seq<Node>, at: seq<Place>, m: nat, p: nat, f: nat, unused: int, nodes': seq<Node>,
                     at': seq<Place>)
    requires |at| == |nodes| == |nodes'| && FreeAlone(nodes, at) && m < |nodes| && p < |nodes| && f < |nodes| && m != f
    requires !nodes'[m].key.NilKey? && !nodes'[f].key.NilKey? && !nodes[m].key.NilKey?
    requires forall i :: 0 <= i < |nodes| ==> at[i].chain != unused
    requires forall i :: 0 <= i < |nodes| && i != m && i != f ==>
               nodes'[i].key == nodes[i].key && nodes'[i].val == nodes[i].val
    requires at' == at[f := at[m]][m := Place(unused, 0.0)]
    ensures FreeAlone(nodes', at')
  {
  }

  lemma DisplaceLink(nodes: seq<Node>, at: seq<Place>, m: nat, p: nat, f: nat, unused: int,
                     nodes': seq<Node>, at': seq<Place>, i: nat)
    requires Linked(nodes, at) && i < |nodes| && m < |nodes| && f < |nodes| && p < |nodes|
    requires m != p && f != m && f != p && nodes[p].next == m
    requires forall j :: 0 <= j < |at| ==> at[j].chain != unused && (j != f ==> at[j].chain != at[f].chain)
    requires |nodes'| == |nodes| && nodes'[p].next == f && nodes'[f].next == nodes[m].next && nodes'[m].next == NULL
    requires forall j :: 0 <= j < |nodes| && j != p && j != f && j != m ==> nodes'[j] == nodes[j]
    requires at' == at[f := at[m]][m := Place(unused, 0.0)]
    ensures LinkedAt(nodes', at', i)
  {
    var o := if i == f then m else i;
    assert LinkedAt(nodes, at, o) && LinkedAt(nodes, at, p);
    if i != m {
      forall j | 0 <= j < |at'| && Before(at'[i], at'[j]) ensures Before(at[o], at[if j == f then m else j]) {}
    }
  }

  // The colliding node m is in its own place: the new key goes to the free
  // node f, which is linked behind m.
  lemma Append(nh: NumHash, nodes: seq<Node>, at: seq<Place>, key: Key, f: nat, nodes': seq<Node>, at': seq<Place>)
    requires Linked(nodes, at) && KeysPlaced(nh, nodes, at)
    requires !key.NilKey? && !key.NaN? && forall i :: 0 <= i < |nodes| ==> nodes[i].key != key
    requires f < |nodes| && nodes[f].key.NilKey?
    requires var m := MainPosition(nh, |nodes|, key);
             && !nodes[m].key.NilKey? && MainPosition(nh, |nodes|, nodes[m].key) == m
             && nodes' == nodes[f := Node(key, Nil, nodes[m].next)][m := nodes[m].(next := f)]
             && at' == at[f := PlaceBehind(nodes, at, m)]
    ensures Linked(nodes', at') && KeysPlaced(nh, nodes', at')
  {
    var m := MainPosition(nh, |nodes|, key);
    assert f != m && LinkedAt(nodes, at, m);
    assert Linked(nodes', at') by {
      forall i | 0 <= i < |nodes'| ensures LinkedAt(nodes', at', i) {
        AppendLink(nodes, at, m, f, nodes', at', i);
      }
    }
    AppendKeys(nh, nodes, at, key, f, nodes', at');
  }

  lemma AppendKeys(nh: NumHash, nodes: seq<Node>, at: seq<Place>, key: Key, f: nat, nodes': seq<Node>, at': seq<Place>)
    requires KeysPlaced(nh, nodes, at) && f < |nodes| && nodes[f].key.NilKey?
    requires !key.NilKey? && !key.NaN? && forall i :: 0 <= i < |nodes| ==> nodes[i].key != key
    requires var m := MainPosition(nh, |nodes|, key);
             && !nodes[m].key.NilKey? && MainPosition(nh, |nodes|, nodes[m].key) == m
             && nodes' == nodes[f := Node(key, Nil, nodes[m].next)][m := nodes[m].(next := f)]
             && |at'| == |at| && UpTo(at[m], at'[f]) && at' == at[f := at'[f]]
    ensures KeysPlaced(nh, nodes', at')
  {
    var m := MainPosition(nh, |nodes|, key);
    forall i | 0 <= i < |nodes'| && !nodes'[i].key.NilKey? ensures KeyPlaced(nh, nodes', at', i) {
      hide KeysApart;
      if i != f { assert KeyPlaced(nh, nodes, at, i); }
    }
    assert KeysApart(nodes') by { hide FreeAlone, KeyPlaced; }
    assert FreeAlone(nodes', at') by { hide KeysApart, KeyPlaced; }
  }

  // A place between a node and the next one of its chain.
  ghost function PlaceBehind(nodes: seq<Node>, at: seq<Place>, m: nat): Place
    requires m < |nodes| == |at|
  {
    var n := nodes[m].next;
    Place(at[m].chain, if 0 <= n < |at| then (at[m].rank + at[n].rank) / 2.0 else at[m].rank + 1.0)
  }

  lemma AppendLink(nodes: seq<Node>, at: seq<Place>, m: nat, f: nat, nodes': seq<Node>, at': seq<Place>, i: nat)
    requires Linked(nodes, at) && i < |nodes| && m < |nodes| && f < |nodes| && f != m
    requires forall j :: 0 <= j < |at| ==> j != f ==> at[j].chain != at[f].chain
    requires |nodes'| == |nodes| && nodes'[m].next == f && nodes'[f].next == nodes[m].next
    requires forall j :: 0 <= j < |nodes| && j != f && j != m ==> nodes'[j] == nodes[j]
    requires at' == at[f := PlaceBehind(nodes, at, m)]
    ensures LinkedAt(nodes', at', i)
  {
    assert LinkedAt(nodes, at, m);
    if i != f { assert LinkedAt(nodes, at, i); }
  }
}
