// Lua tables: an array part and a hash part that together are one finite map.
module Table {
  import opened Chains
  import opened Powers
  import opened TableSizes

  // Where a value is kept.
  datatype Slot = NoSlot | InArray(i: nat) | InNode(i: nat)

  datatype SetResult = At(slot: Slot) | NilIndex | NaNIndex | Overflow

  // The value a table with these parts has at a key.
  ghost function Lookup(items: seq<Value>, nodes: seq<Node>, key: Key): Value {
    if 1 <= ArrayIndex(key) <= |items| then items[ArrayIndex(key) - 1]
    else if exists i :: 0 <= i < |nodes| && nodes[i].key == key then
      var i :| 0 <= i < |nodes| && nodes[i].key == key; nodes[i].val
    else Nil
  }

  // A value the hash part holds.
  ghost predicate Entry(nodes: seq<Node>, key: Key, v: Value) {
    !v.Nil? && exists i :: 0 <= i < |nodes| && nodes[i].key == key && nodes[i].val == v
  }

  lemma LookupEntry(items: seq<Value>, nodes: seq<Node>, key: Key)
    requires KeysApart(nodes) && (forall i :: 0 <= i < |nodes| && nodes[i].key.NilKey? ==> nodes[i].val.Nil?)
    requires !(1 <= ArrayIndex(key) <= |items|)
    ensures forall v: Value :: !v.Nil? ==> (Lookup(items, nodes, key) == v <==> Entry(nodes, key, v))
  {
  }

  lemma SameLookups(items: seq<Value>, nodes: seq<Node>, nodes': seq<Node>)
    requires KeysApart(nodes) && (forall i :: 0 <= i < |nodes| && nodes[i].key.NilKey? ==> nodes[i].val.Nil?)
    requires KeysApart(nodes') && (forall i :: 0 <= i < |nodes'| && nodes'[i].key.NilKey? ==> nodes'[i].val.Nil?)
    requires forall k, v :: Entry(nodes, k, v) <==> Entry(nodes', k, v)
    ensures forall k :: Lookup(items, nodes', k) == Lookup(items, nodes, k)
  {
    forall k ensures Lookup(items, nodes', k) == Lookup(items, nodes, k) {
      if !(1 <= ArrayIndex(k) <= |items|) {
        LookupEntry(items, nodes, k);
        LookupEntry(items, nodes', k);
        var v, v' := Lookup(items, nodes, k), Lookup(items, nodes', k);
        if !v.Nil? { assert Entry(nodes, k, v); }
        if !v'.Nil? { assert Entry(nodes', k, v'); }
      }
    }
  }

  // The entries after a new key was put in node m, node f taking what m held.
  lemma SameEntries(nodes: seq<Node>, nodes': seq<Node>, m: nat, f: nat)
    requires |nodes'| == |nodes| && m < |nodes| && f < |nodes| && nodes'[m].val.Nil?
    requires if f == m then nodes[m].val.Nil?
             else nodes[f].val.Nil? && nodes'[f].key == nodes[m].key && nodes'[f].val == nodes[m].val
    requires forall i :: 0 <= i < |nodes| && i != m && i != f ==>
               nodes'[i].key == nodes[i].key && nodes'[i].val == nodes[i].val
    ensures forall k, v :: Entry(nodes, k, v) <==> Entry(nodes', k, v)
  {
    forall k, v ensures Entry(nodes, k, v) <==> Entry(nodes', k, v) {
      if Entry(nodes, k, v) {
        var i :| 0 <= i < |nodes| && nodes[i].key == k && nodes[i].val == v;
        assert nodes'[if i == m then f else i].key == k;
      }
      if Entry(nodes', k, v) {
        var i :| 0 <= i < |nodes| && nodes'[i].key == k && nodes'[i].val == v;
        assert nodes[if i == f then m else i].key == k;
      }
    }
  }

  class Table {
    const numHash: NumHash
    var items: seq<Value>
    var nodes: seq<Node>
    var dummy: bool
    var lastfree: nat
    ghost var at: seq<Place>

    ghost predicate Valid()
      reads this
    {
      && Linked(nodes, at) && KeysPlaced(numHash, nodes, at)
      && (forall i :: 0 <= i < |nodes| ==> !InArrayPart(nodes[i].key))
      && lastfree <= |nodes| && |items| <= MAXASIZE && |nodes| <= MAXASIZE
      && if dummy then nodes == [Node(NilKey, Nil, NULL)] && lastfree == 0
         else forall i :: lastfree <= i < |nodes| ==> !nodes[i].key.NilKey?
    }

    predicate InArrayPart(key: Key)
      reads this`items
    {
      1 <= ArrayIndex(key) <= |items|
    }

    ghost function ValueAt(key: Key): Value
      reads this`items, this`nodes
    {
      Lookup(items, nodes, key)
    }

    // ---------- search ----------

    // Walks the chain of the key's main position.
    method FindNode(key: Key) returns (i: int)
      requires Linked(nodes, at) && KeysPlaced(numHash, nodes, at) && !key.NilKey?
      ensures i >= 0 ==> i < |nodes| && nodes[i].key == key && !key.NaN?
      ensures i < 0 ==> forall j :: 0 <= j < |nodes| ==> nodes[j].key != key
    {
      var m := MainPosition(numHash, |nodes|, key);
      i := m;
      while true
        invariant 0 <= i < |nodes| && UpTo(at[m], at[i])
        invariant forall j :: 0 <= j < |nodes| && UpTo(at[m], at[j]) && Before(at[j], at[i]) ==> nodes[j].key != key
        decreases Behind(at, at[i])
      {
        assert LinkedAt(nodes, at, i);
        if RawEqual(nodes[i].key, key) {
          return i;
        }
        if nodes[i].next == NULL {
          forall j | 0 <= j < |nodes| && nodes[j].key == key ensures UpTo(at[m], at[j]) && !key.NaN? {
            assert KeyPlaced(numHash, nodes, at, j);
          }
          return -1;
        }
        BehindNext(at, at[i], at[nodes[i].next]);
        i := nodes[i].next;
      }
    }

    // Only nodes that never held a key are free; they are taken from the end.
    method GetFreePos() returns (f: int)
      requires Valid()
      modifies this`lastfree
      ensures 0 <= lastfree <= old(lastfree)
      ensures f >= 0 ==> !dummy && f == lastfree < |nodes| && nodes[f].key.NilKey?
                         && forall i :: f < i < |nodes| ==> !nodes[i].key.NilKey?
      ensures f < 0 ==> Valid() && (dummy || forall i :: 0 <= i < |nodes| ==> !nodes[i].key.NilKey?)
    {
      while lastfree > 0
        invariant lastfree <= old(lastfree)
        invariant !dummy ==> forall i :: lastfree <= i < |nodes| ==> !nodes[i].key.NilKey?
      {
        lastfree := lastfree - 1;
        if nodes[lastfree].key.NilKey? {
          return lastfree;
        }
      }
      return -1;
    }

    // A place for the key exists without growing the table.
    ghost predicate HasPlace(key: Key)
      reads this`dummy, this`nodes
    {
      !dummy && |nodes| > 0 &&
      (nodes[MainPosition(numHash, |nodes|, key)].val.Nil? || exists i :: 0 <= i < |nodes| && nodes[i].key.NilKey?)
    }

    lemma PlaceFound(key: Key, mp: nat, f: int)
      requires |nodes| > 0 && mp == MainPosition(numHash, |nodes|, key) && (!dummy ==> mp < |nodes|)
      requires f >= 0 ==> !dummy && f < |nodes| && (nodes[f].key.NilKey? || (f == mp && nodes[mp].val.Nil?))
      requires f < 0 ==> dummy || (!nodes[mp].val.Nil? && forall i :: 0 <= i < |nodes| ==> !nodes[i].key.NilKey?)
      ensures HasPlace(key) <==> f >= 0
    {
      hide MainPosition;
    }

    ghost predicate Refers(slot: Slot, key: Key)
      reads this`items, this`nodes
    {
      match slot
      case NoSlot => false
      case InArray(i) => InArrayPart(key) && i == ArrayIndex(key) - 1
      case InNode(i) => !InArrayPart(key) && i < |nodes| && nodes[i].key == key
    }

    // Inserts a new key where there is a place for it, without growing the table.
    method InsertKey(key: Key, mp: nat) returns (i: int)
      requires Valid() && !key.NilKey? && !key.NaN? && !InArrayPart(key)
               && forall j :: 0 <= j < |nodes| ==> nodes[j].key != key
      requires mp == MainPosition(numHash, |nodes|, key)
      modifies this`nodes, this`lastfree, this`at
      ensures Valid() && |nodes| == |old(nodes)|
      ensures i < 0 <==> !old(HasPlace(key))
      ensures i < 0 ==> nodes == old(nodes)
      ensures i >= 0 ==> i < |nodes| && nodes[i].key == key && nodes[i].val.Nil?
      ensures forall k :: ValueAt(k) == old(ValueAt(k))
      ensures Used(nodes, |nodes|) <= Used(old(nodes), |nodes|) + 1
    {
      hide Linked, KeysPlaced, Inserted, MainPosition, Lookup, Used, LinkedAt, UpTo, HasPlace, ArrayIndex, KeyPlaced;
      ghost var ns, free := nodes, mp;
      Placed(numHash, nodes, at);
      if !nodes[mp].val.Nil? || dummy {
        var f := GetFreePos();
        PlaceFound(key, mp, f);
        if f < 0 {
          return -1;
        }
        i := InsertColliding(key, mp, f);
        free := f;
      } else {
        PlaceFound(key, mp, mp);
        nodes := nodes[mp := nodes[mp].(key := key)];
        Reused(numHash, items, ns, at, key, nodes);
        i := mp;
      }
      InsertedParts(numHash, items, ns, nodes, at, key, i, free);
    }

    // The main position is taken: one of the two keys goes to the free node f.
    method InsertColliding(key: Key, mp: nat, f: nat) returns (i: int)
      requires Linked(nodes, at) && KeysPlaced(numHash, nodes, at) && f < |nodes| && nodes[f].key.NilKey?
      requires !key.NilKey? && !key.NaN? && forall j :: 0 <= j < |nodes| ==> nodes[j].key != key
      requires mp == MainPosition(numHash, |nodes|, key) && !nodes[mp].key.NilKey?
      modifies this`nodes, this`at
      ensures Inserted(numHash, items, old(nodes), nodes, at, key, i, f)
    {
      hide Linked, KeysPlaced, Inserted, MainPosition, Lookup;
      ghost var ns, olds := nodes, at;
      Placed(numHash, nodes, at);
      var othern := MainPosition(numHash, |nodes|, nodes[mp].key);
      if othern != mp {
        var p := FindPrevious(othern, mp);
        FreeNotLinked(nodes, at, p, f, numHash);
        nodes := nodes[p := nodes[p].(next := f)];
        nodes := nodes[f := nodes[mp]];
        nodes := nodes[mp := Node(key, Nil, NULL)];
        at := at[f := at[mp]][mp := Place(UnusedChain(olds), 0.0)];
        Displaced(numHash, items, ns, olds, key, p, f, nodes, at);
        i := mp;
      } else {
        nodes := nodes[f := Node(key, Nil, nodes[mp].next)];
        nodes := nodes[mp := nodes[mp].(next := f)];
        at := at[f := PlaceBehind(ns, olds, mp)];
        Appended(numHash, items, ns, olds, key, f, nodes, at);
        i := f;
      }
    }

    // The node before a colliding node in its chain.
    method FindPrevious(othern: nat, mp: nat) returns (p: nat)
      requires Linked(nodes, at) && mp < |nodes| && othern < |nodes| && othern != mp && UpTo(at[othern], at[mp])
      ensures p < |nodes| && nodes[p].next == mp
    {
      p := othern;
      while nodes[p].next != mp
        invariant p < |nodes| && Before(at[p], at[mp])
        decreases Behind(at, at[p])
      {
        assert LinkedAt(nodes, at, p);
        BehindNext(at, at[p], at[nodes[p].next]);
        assert at[nodes[p].next] != at[mp];
        p := nodes[p].next;
      }
    }

    // ---------- get and set ----------

    method GetNum(k: int) returns (s: Slot)
      requires Valid() && ArrayIndex(Number(k as real)) == k
      ensures s.NoSlot? ==> Missing(Number(k as real))
      ensures !s.NoSlot? ==> Refers(s, Number(k as real))
    {
      if 1 <= k <= |items| {
        return InArray(k - 1);
      }
      var i := FindNode(Number(k as real));
      return if i < 0 then NoSlot else InNode(i);
    }

    // The key has no place in the table.
    ghost predicate Missing(key: Key)
      reads this`items, this`nodes
    {
      key.NilKey? || key.NaN? || (!InArrayPart(key) && forall i :: 0 <= i < |nodes| ==> nodes[i].key != key)
    }

    method Get(key: Key) returns (s: Slot)
      requires Valid()
      ensures s.NoSlot? ==> Missing(key)
      ensures !s.NoSlot? ==> !key.NilKey? && !key.NaN? && Refers(s, key)
    {
      if key.NilKey? {
        return NoSlot;
      }
      if key.Number? && ArrayIndex(key) as real == key.n {
        s := GetNum(ArrayIndex(key));
        return;
      }
      var i := FindNode(key);
      return if i < 0 then NoSlot else InNode(i);
    }

    // The value kept at a slot; nil when there is none.
    function SlotValue(s: Slot): Value
      requires match s case NoSlot => true case InArray(i) => i < |items| case InNode(i) => i < |nodes|
      reads this`items, this`nodes
    {
      match s
      case NoSlot => Nil
      case InArray(i) => items[i]
      case InNode(i) => nodes[i].val
    }

    method GetValue(key: Key) returns (v: Value)
      requires Valid()
      ensures v == ValueAt(key)
    {
      var s := Get(key);
      SlotIs(s, key);
      v := SlotValue(s);
    }

    lemma SlotIs(s: Slot, key: Key)
      requires Valid() && if s.NoSlot? then Missing(key) else !key.NilKey? && !key.NaN? && Refers(s, key)
      ensures SlotValue(s) == ValueAt(key)
    {
      hide Linked;
      if key.NaN? {
        forall i | 0 <= i < |nodes| ensures nodes[i].key != key {
          assert nodes[i].key == key ==> KeyPlaced(numHash, nodes, at, i);
        }
      }
    }

    method Store(s: Slot, v: Value, ghost key: Key)
      requires Valid() && !key.NilKey? && Refers(s, key)
      modifies this`items, this`nodes
      ensures Valid() && |items| == |old(items)| && |nodes| == |old(nodes)|
      ensures ValueAt(key) == v && forall k :: k != key ==> ValueAt(k) == old(ValueAt(k))
      ensures Used(nodes, |nodes|) == Used(old(nodes), |nodes|)
      ensures forall i :: 0 <= i < |nodes| ==> nodes[i].key == old(nodes)[i].key
    {
      hide Linked, KeysPlaced, Lookup, Used, MainPosition;
      Placed(numHash, nodes, at);
      match s {
        case InArray(i) =>
          ItemStored(items, nodes, key, v);
          items := items[i := v];
        case InNode(i) =>
          ValueStored(numHash, nodes, at, i, v);
          NodeStored(numHash, items, nodes, at, i, v);
          UsedUpdate(nodes, |nodes|, i, nodes[i].(val := v));
          nodes := nodes[i := nodes[i].(val := v)];
      }
    }

    // The key can be set without growing the table.
    ghost predicate Room(key: Key)
      reads this
    {
      key.NilKey? || key.NaN? || InArrayPart(key) || HasPlace(key)
        || exists i :: 0 <= i < |nodes| && nodes[i].key == key
    }

    // How many entries have a value.
    ghost function Live(): nat
      reads this`items, this`nodes
    {
      ItemsIn(items, 0, |items|) + NodesOutside(nodes, |nodes|, 0)
    }

    // How many entries an array part of the given size leaves to the hash part.
    ghost function Outside(size: nat): nat
      reads this`items, this`nodes
    {
      ItemsIn(items, size, |items|) + NodesOutside(nodes, |nodes|, size)
    }

    // A slot for the key, which is inserted if it is missing; no value changes.
    method Set(key: Key) returns (r: SetResult)
      requires Valid()
      modifies this
      ensures r.NilIndex? <==> key.NilKey?
      ensures r.NaNIndex? <==> key.NaN?
      ensures r.At? ==> Refers(r.slot, key)
      ensures !r.Overflow? ==> Valid() && forall k :: ValueAt(k) == old(ValueAt(k))
      ensures r.Overflow? ==> old(Live()) >= MAXASIZE
      ensures old(Room(key)) ==> !r.Overflow? && items == old(items) && |nodes| == |old(nodes)| && dummy == old(dummy)
                                 && Used(nodes, |nodes|) <= Used(old(nodes), |nodes|) + 1
      ensures old(InArrayPart(key)) ==> nodes == old(nodes)
      decreases if Room(key) then 0 else 1, 3
    {
      var s := Get(key);
      if !s.NoSlot? {
        return At(s);
      }
      if key.NilKey? {
        return NilIndex;
      }
      if key.NaN? {
        return NaNIndex;
      }
      r := NewKey(key);
    }

    method NewKey(key: Key) returns (r: SetResult)
      requires Valid() && !key.NilKey? && !key.NaN? && Missing(key)
      modifies this
      ensures r.At? || r.Overflow?
      ensures r.At? ==> Refers(r.slot, key)
      ensures !r.Overflow? ==> Valid() && forall k :: ValueAt(k) == old(ValueAt(k))
      ensures r.Overflow? ==> old(Live()) >= MAXASIZE
      ensures old(HasPlace(key)) ==>
                !r.Overflow? && items == old(items) && |nodes| == |old(nodes)| && dummy == old(dummy)
                                     && Used(nodes, |nodes|) <= Used(old(nodes), |nodes|) + 1
      decreases if HasPlace(key) then 0 else 1, 2
    {
      var mp := MainPosition(numHash, |nodes|, key);
      var i := InsertKey(key, mp);
      if i < 0 {
        var ok := Rehash(key);
        if !ok {
          return Overflow;
        }
        r := Set(key);
        return;
      }
      return At(InNode(i));
    }

    // Grows the table so that it has room for one more key.
    method Rehash(key: Key) returns (ok: bool)
      requires Valid() && !key.NilKey? && !key.NaN? && Missing(key)
      modifies this
      ensures ok ==> Valid() && Room(key) && forall k :: ValueAt(k) == old(ValueAt(k))
      ensures !ok ==> old(Live()) >= MAXASIZE
      decreases 1, 1
    {
      hide Linked, KeysPlaced, InUse, Lookup, ItemsIn, NodesOutside;
      var nasize, total, na := CountKeys(key);
      ok := Resize(nasize, total - na);
      if ok && !InArrayPart(key) { SomeUnused(nodes, |nodes|); }
    }

    // Counts the keys in use and the one to insert. The array part gets the
    // largest size, a power of two, of which more than half will be in use.
    method CountKeys(key: Key) returns (nasize: nat, total: nat, na: nat)
      requires Valid() && !key.NilKey? && !key.NaN? && Missing(key)
      ensures nasize <= MAXASIZE && na <= total == Live() + 1
      ensures total - na == Outside(nasize) + if Within(key, 0, nasize) then 0 else 1
      ensures na == InUse(items, nodes, key, nasize)
      ensures nasize > 0 ==> na > nasize / 2 && exists i :: 0 <= i <= MAXBITS && nasize == Pow2(i)
      ensures NoneBetter(items, nodes, key, nasize)
    {
      hide Linked, KeysPlaced, InUse, Counted, ArrayIndex, ItemsIn, NodesIn, NodesOutside, Sum, Pow2, Best, SliceLo;
      var nums := seq(MAXBITS + 1, _ => 0);
      var ause, hause, extra;
      nums, ause := NumUseArray(nums);
      nums, hause, total := NumUseHash(nums);
      nums, extra := CountInt(key, nums);
      total := total + ause + 1;
      assert Counted(items, nodes, key, nums) by { CountedAll(items, nodes, key, nums); }
      CountedTotal(key, nums, ause + hause + extra);
      nasize, na := ComputeSizes(nums, ause + hause + extra);
      SizeChosen(key, nums, nasize, na);
      LeftOver(items, nodes, key, nasize);
    }

    lemma CountedTotal(key: Key, nums: seq<nat>, narray: nat)
      requires Valid() && !key.NilKey? && !key.NaN? && Missing(key) && |nums| == MAXBITS + 1
               && Counted(items, nodes, key, nums)
      requires narray == IntKeys(items, nodes, key)
      ensures Summed(nums, narray)
    {
      hide Linked, Counted, ArrayIndex, InUse, Pow2;
      TotalInUse(key);
      CountedSum(items, nodes, key, nums, MAXBITS);
      forall i | 0 <= i <= MAXBITS ensures Sum(nums, i + 1) <= Pow2(i) {
        CountedSum(items, nodes, key, nums, i);
        InUseBound(items, nodes, key, Pow2(i));
      }
    }

    lemma TotalInUse(key: Key)
      requires |items| <= MAXASIZE
      ensures InUse(items, nodes, key, MAXASIZE) ==
              ItemsIn(items, 0, |items|) + NodesIn(nodes, |nodes|, 0, MAXASIZE)
                + if Within(key, 0, MAXASIZE) then 1 else 0
    {
      hide ArrayIndex;
      ItemsSplit(items, 0, |items|, MAXASIZE);
      ItemsBound(items, |items|, MAXASIZE);
    }

    lemma SizeChosen(key: Key, nums: seq<nat>, n: nat, na: nat)
      requires |nums| == MAXBITS + 1 && Counted(items, nodes, key, nums)
      requires Best(nums, n, na)
      ensures SizeFor(items, nodes, key, n, na)
    {
      hide Counted, InUse, Sum, Pow2;
      forall j | 0 <= j <= MAXBITS
        ensures InUse(items, nodes, key, Pow2(j)) == Sum(nums, j + 1)
        ensures Pow2(j) <= MAXASIZE
        ensures !Worthwhile(nums, j) ==> InUse(items, nodes, key, Pow2(j)) <= Pow2(j) / 2
      {
        CountedSum(items, nodes, key, nums, j);
        SliceFits(j);
      }
      if n == 0 {
        NoneInUse(items, nodes, key);
      } else {
        var i :| 0 <= i <= MAXBITS && BestAt(nums, |nums|, n, na, i);
        forall j | 0 <= j <= MAXBITS && Pow2(j) > n ensures i < j { if j < i { Pow2Grows(j, i); } }
      }
    }

    // Adds the keys in use in the array part, slice by slice.
    method NumUseArray(nums: seq<nat>) returns (r: seq<nat>, ause: nat)
      requires |nums| == MAXBITS + 1 && |items| <= MAXASIZE
      ensures |r| == |nums| && ause == ItemsIn(items, 0, |items|)
      ensures forall lg :: 0 <= lg <= MAXBITS ==> r[lg] == nums[lg] + ItemsIn(items, SliceLo(lg), Pow2(lg))
    {
      hide Pow2, SliceLo, ItemsIn;
      r, ause := nums, 0;
      var lg, ttlg, i := 0, 1, 1;
      PowStep(0);
      ItemsBound(items, 0, 0);
      while lg <= MAXBITS
        invariant 0 <= lg <= MAXBITS + 1 && ttlg == Pow2(lg) && |r| == |nums|
        invariant i - 1 == (if SliceLo(lg) < |items| then SliceLo(lg) else |items|)
        invariant ause == ItemsIn(items, 0, i - 1)
        invariant forall l :: 0 <= l <= MAXBITS ==>
                    r[l] == nums[l] + if l < lg then ItemsIn(items, SliceLo(l), Pow2(l)) else 0
      {
        var lim := ttlg;
        ghost var start := i - 1;
        if lim > |items| {
          lim := |items|;
          if i > lim {
            NoMoreItems(items, lg);
            break;
          }
        }
        SliceOrder(lg);
        var lc;
        lc, i := CountItems(i, lim);
        SliceCounted(items, lg, start, lim);
        r := r[lg := r[lg] + lc];
        ause := ause + lc;
        PowStep(lg);
        lg, ttlg := lg + 1, ttlg * 2;
      }
      PowStep(MAXBITS);
    }

    // Counts the values from place i on, up to place lim.
    method CountItems(i: nat, lim: nat) returns (lc: nat, i': nat)
      requires 0 < i <= lim + 1 && lim <= |items|
      ensures lc == ItemsIn(items, i - 1, lim) && i' == lim + 1
    {
      lc, i' := 0, i;
      while i' <= lim
        invariant i <= i' <= lim + 1 && lc == ItemsIn(items, i - 1, i' - 1)
      {
        if !items[i' - 1].Nil? {
          lc := lc + 1;
        }
        i' := i' + 1;
      }
    }

    // Adds the keys in use in the hash part.
    method NumUseHash(nums: seq<nat>) returns (r: seq<nat>, ause: nat, total: nat)
      requires |nums| == MAXBITS + 1
      ensures |r| == |nums| && ause == NodesIn(nodes, |nodes|, 0, MAXASIZE) && total == NodesOutside(nodes, |nodes|, 0)
      ensures forall lg :: 0 <= lg <= MAXBITS ==> r[lg] == nums[lg] + NodesIn(nodes, |nodes|, SliceLo(lg), Pow2(lg))
    {
      hide Pow2, SliceLo, ArrayIndex, NodesIn, NodesOutside;
      r, ause, total := nums, 0, 0;
      var i := |nodes|;
      while i > 0
        invariant 0 <= i <= |nodes| && |r| == |nums|
        invariant ause + NodesIn(nodes, i, 0, MAXASIZE) == NodesIn(nodes, |nodes|, 0, MAXASIZE)
        invariant total + NodesOutside(nodes, i, 0) == NodesOutside(nodes, |nodes|, 0)
        invariant forall lg :: 0 <= lg <= MAXBITS ==>
                    r[lg] + NodesIn(nodes, i, SliceLo(lg), Pow2(lg)) ==
                      nums[lg] + NodesIn(nodes, |nodes|, SliceLo(lg), Pow2(lg))
      {
        i := i - 1;
        forall lo, hi {:trigger NodesIn(nodes, i, lo, hi)}
          ensures NodesIn(nodes, i + 1, lo, hi) ==
                  NodesIn(nodes, i, lo, hi) + if !nodes[i].val.Nil? && Within(nodes[i].key, lo, hi) then 1 else 0
        {
          NodesStep(nodes, i, lo, hi);
        }
        NodesStep(nodes, i, 0, 0);
        if !nodes[i].val.Nil? {
          var k;
          r, k := CountInt(nodes[i].key, r);
          ause := ause + k;
          total := total + 1;
        }
      }
      forall lo, hi {:trigger NodesIn(nodes, 0, lo, hi)} ensures NodesIn(nodes, 0, lo, hi) == 0 {
        NoneWithin(nodes, 0, lo, hi);
      }
      NoneOutside(nodes);
    }

    method CountInt(key: Key, nums: seq<nat>) returns (r: seq<nat>, n: nat)
      requires |nums| == MAXBITS + 1
      ensures |r| == |nums| && n == if Within(key, 0, MAXASIZE) then 1 else 0
      ensures forall lg :: 0 <= lg <= MAXBITS ==>
                r[lg] == nums[lg] + if Within(key, SliceLo(lg), Pow2(lg)) then 1 else 0
    {
      hide Pow2, SliceLo;
      var k := ArrayIndex(key);
      forall lg | 0 <= lg <= MAXBITS && k > 0 ensures Within(key, SliceLo(lg), Pow2(lg)) <==> lg == CeilLog2(k) {
        InSlice(k, lg);
      }
      if 0 < k <= MAXASIZE {
        if CeilLog2(k) > MAXBITS { SliceTooLarge(CeilLog2(k)); }
        return nums[CeilLog2(k) := nums[CeilLog2(k)] + 1], 1;
      }
      if k > 0 && CeilLog2(k) <= MAXBITS { SliceFits(CeilLog2(k)); }
      return nums, 0;
    }

    method Resize(nasize: nat, nhsize: nat) returns (ok: bool)
      requires Valid() && nasize <= MAXASIZE && Outside(nasize) <= nhsize
      modifies this
      ensures ok ==> Valid() && |items| == nasize && forall k :: ValueAt(k) == old(ValueAt(k))
      ensures ok ==> Used(nodes, |nodes|) <= old(Outside(nasize)) && nhsize <= if dummy then 0 else |nodes|
      ensures ok <==> nhsize <= MAXASIZE
      decreases 1, 0
    {
      hide Linked, KeysPlaced, Lookup, Moved, Used, OldTable, Moving;
      var oldItems, oldNodes := items, nodes;
      ghost var total := Outside(nasize);
      ValidOld();
      if nasize > |items| {
        items := items + seq(nasize - |items|, _ => Nil);
      }
      ok := SetNodeVector(nhsize);
      if !ok {
        return;
      }
      if nasize < |items| {
        items := items[..nasize];
      }
      var i := nasize;
      MovingStarts(oldItems, oldNodes, nasize, nhsize, total);
      while i < |oldItems|
        invariant nasize <= i && (i <= |oldItems| || i == nasize)
        invariant Moving(oldItems, oldNodes, nasize, nhsize, total, i, |oldNodes|)
      {
        i := MoveItem(oldItems, oldNodes, nasize, nhsize, total, i);
      }
      var j := |oldNodes|;
      while j > 0
        invariant 0 <= j <= |oldNodes|
        invariant Moving(oldItems, oldNodes, nasize, nhsize, total, i, j)
      {
        j := MoveNode(oldItems, oldNodes, nasize, nhsize, total, i, j);
      }
      MovingEnds(oldItems, oldNodes, nasize, nhsize, total, i);
    }

    // The state of a resizing that has moved the items up to place i and the nodes from j on.
    ghost predicate Moving(oldItems: seq<Value>, oldNodes: seq<Node>, nasize: nat, nhsize: nat, total: nat, i: nat,
                           j: nat)
      requires j <= |oldNodes|
      reads this
    {
      && Valid() && |items| == nasize && nhsize <= (if dummy then 0 else |nodes|) && total <= nhsize
      && Used(nodes, |nodes|) + ItemsIn(oldItems, i, |oldItems|) + NodesOutside(oldNodes, j, nasize) <= total
      && forall k :: ValueAt(k) == Moved(oldItems, oldNodes, i, j, k)
    }

    lemma MovingStarts(oldItems: seq<Value>, oldNodes: seq<Node>, nasize: nat, nhsize: nat, total: nat)
      requires Valid() && |items| == nasize && nhsize <= (if dummy then 0 else |nodes|) && total <= nhsize
      requires ItemsIn(oldItems, nasize, |oldItems|) + NodesOutside(oldNodes, |oldNodes|, nasize) <= total
      requires OldTable(oldItems, oldNodes)
      requires forall i :: 0 <= i < nasize ==> items[i] == if i < |oldItems| then oldItems[i] else Nil
      requires forall i :: 0 <= i < |nodes| ==> nodes[i] == Node(NilKey, Nil, NULL)
      ensures Moving(oldItems, oldNodes, nasize, nhsize, total, nasize, |oldNodes|)
    {
      StartMoving(oldItems, oldNodes, items, nodes, nasize);
    }

    lemma MovingEnds(oldItems: seq<Value>, oldNodes: seq<Node>, nasize: nat, nhsize: nat, total: nat, i: nat)
      requires Moving(oldItems, oldNodes, nasize, nhsize, total, i, 0) && |oldItems| <= i
      ensures Valid() && |items| == nasize && Used(nodes, |nodes|) <= total && nhsize <= if dummy then 0 else |nodes|
      ensures forall k :: ValueAt(k) == Lookup(oldItems, oldNodes, k)
    {
      AllMoved(oldItems, oldNodes, i);
    }

    method MoveItem(oldItems: seq<Value>, oldNodes: seq<Node>, nasize: nat, nhsize: nat, ghost total: nat, i: nat)
      returns (i': nat)
      requires nasize <= i < |oldItems| <= MAXASIZE && OldTable(oldItems, oldNodes)
      requires Moving(oldItems, oldNodes, nasize, nhsize, total, i, |oldNodes|)
      modifies this
      ensures i' == i + 1 && Moving(oldItems, oldNodes, nasize, nhsize, total, i + 1, |oldNodes|)
      decreases 0, 5
    {
      hide Linked, KeysPlaced, Lookup, Moved, NodesOutside, Used;
      ItemsSplit(oldItems, i, i + 1, |oldItems|);
      if !oldItems[i].Nil? {
        var key := Number((i + 1) as real);
        IndexOf(i + 1);
        FreePlace(key);
        Reinsert(key, oldItems[i]);
      }
      ItemMoved(oldItems, oldNodes, i);
      return i + 1;
    }

    method MoveNode(oldItems: seq<Value>, oldNodes: seq<Node>, nasize: nat, nhsize: nat, ghost total: nat, i: nat,
                    j: nat) returns (j': nat)
      requires 0 < j <= |oldNodes| && |oldItems| <= i && OldTable(oldItems, oldNodes)
      requires Moving(oldItems, oldNodes, nasize, nhsize, total, i, j)
      modifies this
      ensures j' == j - 1 && Moving(oldItems, oldNodes, nasize, nhsize, total, i, j - 1)
      decreases 0, 5
    {
      hide Linked, KeysPlaced;
      if !oldNodes[j - 1].val.Nil? {
        if !InArrayPart(oldNodes[j - 1].key) { FreePlace(oldNodes[j - 1].key); }
        Reinsert(oldNodes[j - 1].key, oldNodes[j - 1].val);
      }
      NodeMoved(oldItems, oldNodes, i, j);
      return j - 1;
    }

    lemma ValidOld()
      requires Valid()
      ensures OldTable(items, nodes)
    {
      forall j | 0 <= j < |nodes| ensures !nodes[j].key.NaN? {
        assert !nodes[j].key.NilKey? ==> KeyPlaced(numHash, nodes, at, j);
      }
    }

    lemma FreePlace(key: Key)
      requires Used(nodes, |nodes|) < (if dummy then 0 else |nodes|)
      ensures Room(key)
    {
      SomeUnused(nodes, |nodes|);
    }

    // Sets a key for which there is room.
    method Reinsert(key: Key, v: Value)
      requires Valid() && !key.NilKey? && !key.NaN? && Room(key)
      modifies this
      ensures Valid() && |items| == |old(items)| && |nodes| == |old(nodes)| && dummy == old(dummy)
      ensures ValueAt(key) == v && forall k :: k != key ==> ValueAt(k) == old(ValueAt(k))
      ensures Used(nodes, |nodes|) <= Used(old(nodes), |nodes|) + if old(InArrayPart(key)) then 0 else 1
      decreases 0, 4
    {
      var r := Set(key);
      Store(r.slot, v, key);
    }

    // An empty hash part; its size is a power of two.
    method SetNodeVector(size: nat) returns (ok: bool)
      requires |items| <= MAXASIZE
      modifies this`nodes, this`dummy, this`lastfree, this`at
      ensures ok <==> size <= MAXASIZE
      ensures ok ==> Valid() && size <= (if dummy then 0 else |nodes|)
      ensures ok ==> forall i :: 0 <= i < |nodes| ==> nodes[i] == Node(NilKey, Nil, NULL)
      ensures !ok ==> nodes == old(nodes)
    {
      hide Pow2;
      if size == 0 {
        nodes, dummy, lastfree, at := [Node(NilKey, Nil, NULL)], true, 0, [Place(0, 0.0)];
        ok := true;
        Pow2Grows(0, MAXBITS);
      } else {
        var lsize := CeilLog2(size);
        if lsize > MAXBITS {
          if MAXBITS < lsize - 1 { Pow2Grows(MAXBITS, lsize - 1); }
          return false;
        }
        if lsize < MAXBITS { Pow2Grows(lsize, MAXBITS); }
        var n := Pow2(lsize);
        nodes, dummy, lastfree := seq(n, _ => Node(NilKey, Nil, NULL)), false, n;
        at := seq(n, i => Place(i, 0.0));
        ok := true;
      }
    }

    constructor (numHash: NumHash)
      ensures Valid() && forall k :: ValueAt(k) == Nil
    {
      this.numHash := numHash;
      items, nodes, dummy, lastfree := [], [Node(NilKey, Nil, NULL)], true, 0;
      at := [Place(0, 0.0)];
      new;
      SmallSize();
    }

    // t[key] = v.
    method Put(key: Key, v: Value) returns (r: SetResult)
      requires Valid()
      modifies this
      ensures r.NilIndex? <==> key.NilKey?
      ensures r.NaNIndex? <==> key.NaN?
      ensures r.At? ==> Valid() && ValueAt(key) == v && forall k :: k != key ==> ValueAt(k) == old(ValueAt(k))
      ensures r.NilIndex? || r.NaNIndex? ==> Valid() && forall k :: ValueAt(k) == old(ValueAt(k))
      ensures r.Overflow? ==> old(Live()) >= MAXASIZE
    {
      r := Set(key);
      if r.At? {
        Store(r.slot, v, key);
      }
    }

    // Gives the array part a new size and keeps the size of the hash part.
    method ResizeArray(nasize: nat) returns (ok: bool)
      requires Valid() && |items| <= nasize <= MAXASIZE
      modifies this
      ensures ok && Valid() && |items| == nasize && forall k :: ValueAt(k) == old(ValueAt(k))
    {
      ItemsBound(items, nasize, |items|);
      AtMostUsed(nodes, |nodes|, nasize);
      if dummy { NoneOutsideDummy(nodes, nasize); }
      ok := Resize(nasize, if dummy then 0 else |nodes|);
    }

    // ---------- traversal ----------

    // Positions count the array part first, then the hash part.
    function KeyAt(p: nat): Key
      requires p < |items| + |nodes|
      reads this`items, this`nodes
    {
      if p < |items| then Number((p + 1) as real) else nodes[p - |items|].key
    }

    function EntryAt(p: nat): Value
      requires p < |items| + |nodes|
      reads this`items, this`nodes
    {
      if p < |items| then items[p] else nodes[p - |items|].val
    }

    method FindIndex(key: Key) returns (found: bool, i: int)
      requires Valid()
      ensures key.NilKey? ==> found && i == -1
      ensures found && !key.NilKey? ==> 0 <= i < |items| + |nodes| && KeyAt(i) == key
      ensures !found ==> Missing(key)
    {
      hide Linked;
      if key.NilKey? {
        return true, -1;
      }
      var k := ArrayIndex(key);
      if 0 < k <= |items| {
        IndexOf(k);
        return true, k - 1;
      }
      var n := FindNode(key);
      return n >= 0, n + |items|;
    }

    // The entry with a value that follows a key.
    method Next(key: Key) returns (found: bool, p: int)
      requires Valid()
      ensures !found ==> Missing(key) && !key.NilKey?
      ensures found ==> exists i :: NextAfter(key, i, p)
    {
      hide Valid;
      var i;
      found, i := FindIndex(key);
      if !found {
        return false, 0;
      }
      p := i + 1;
      while p < |items| && items[p].Nil?
        invariant i < p <= |items| || p == i + 1
        invariant forall q :: i < q < p ==> EntryAt(q).Nil?
      {
        p := p + 1;
      }
      if p >= |items| {
        while p - |items| < |nodes| && nodes[p - |items|].val.Nil?
          invariant |items| <= p && i < p <= |items| + |nodes|
          invariant forall q :: i < q < p ==> EntryAt(q).Nil?
        {
          p := p + 1;
        }
      }
      assert NextAfter(key, i, p);
    }

    // Position i is that of the key, and p the first one behind it with a value, or the end.
    ghost predicate NextAfter(key: Key, i: int, p: int)
      reads this`items, this`nodes
    {
      && (if key.NilKey? then i == -1 else 0 <= i < |items| + |nodes| && KeyAt(i) == key)
      && i < p <= |items| + |nodes| && (forall q :: i < q < p ==> EntryAt(q).Nil?)
      && (p < |items| + |nodes| ==> !EntryAt(p).Nil?)
    }

    // Repeated Next from nil yields every entry once and then ends.
    method Traverse() returns (keys: seq<Key>)
      requires Valid()
      ensures forall i, j :: 0 <= i < j < |keys| ==> keys[i] != keys[j]
      ensures forall k :: k in keys <==> !ValueAt(k).Nil?
    {
      hide Linked, KeysPlaced, ValueAt, Missing, Yielded, Valid;
      keys := [];
      var key := NilKey;
      var found, p := Next(key);
      ghost var ps: seq<int> := [];
      NothingYielded(p);
      while p < |items| + |nodes|
        invariant found && 0 <= p <= |items| + |nodes| && Yielded(keys, ps, p)
        invariant p < |items| + |nodes| ==> !EntryAt(p).Nil?
        decreases |items| + |nodes| - p
      {
        key := KeyAt(p);
        EntryKept(p);
        ghost var before := p;
        found, p := Next(key);
        NextOnly(key, before, p);
        YieldNext(keys, ps, before, p);
        keys, ps := keys + [key], ps + [before];
      }
      Traversed(keys, ps);
    }

    // The keys yielded so far are those of the entries before position p, at positions ps.
    ghost predicate Yielded(keys: seq<Key>, ps: seq<int>, p: int)
      requires p <= |items| + |nodes|
      reads this`items, this`nodes
    {
      && |ps| == |keys|
      && (forall i :: 0 <= i < |ps| ==> 0 <= ps[i] < p && keys[i] == KeyAt(ps[i]) && !EntryAt(ps[i]).Nil?)
      && (forall i, j :: 0 <= i < j < |ps| ==> ps[i] < ps[j])
      && (forall q :: 0 <= q < p && !EntryAt(q).Nil? ==> q in ps)
    }

    lemma NothingYielded(p: int)
      requires exists i :: NextAfter(NilKey, i, p)
      ensures Yielded([], [], p)
    {
    }

    lemma YieldNext(keys: seq<Key>, ps: seq<int>, p: nat, p': int)
      requires p < |items| + |nodes| && Yielded(keys, ps, p) && NextAfter(KeyAt(p), p, p') && !EntryAt(p).Nil?
      ensures Yielded(keys + [KeyAt(p)], ps + [p], p')
    {
      forall q | 0 <= q < p' && !EntryAt(q).Nil? ensures q in ps + [p] {
        if q != p { assert q < p; }
      }
    }

    // Where a value is found by position, it is found by key.
    lemma EntryKept(p: nat)
      requires Valid() && p < |items| + |nodes|
      ensures KeyAt(p).NilKey? ==> EntryAt(p).Nil?
      ensures !KeyAt(p).NilKey? ==> !KeyAt(p).NaN?
      ensures !KeyAt(p).NilKey? ==> ValueAt(KeyAt(p)) == EntryAt(p) && !Missing(KeyAt(p))
      ensures forall q :: 0 <= q < |items| + |nodes| && KeyAt(q) == KeyAt(p) && !KeyAt(p).NilKey? ==> q == p
    {
      hide Linked;
      if p < |items| {
        IndexOf(p + 1);
      } else {
        assert !nodes[p - |items|].key.NilKey? ==> KeyPlaced(numHash, nodes, at, p - |items|);
      }
      forall q | 0 <= q < |items| + |nodes| && KeyAt(q) == KeyAt(p) && !KeyAt(p).NilKey? ensures q == p {
        if q < |items| { IndexOf(q + 1); }
      }
    }

    lemma NextOnly(key: Key, i: nat, p: int)
      requires Valid() && i < |items| + |nodes| && KeyAt(i) == key && !key.NilKey? && exists j :: NextAfter(key, j, p)
      ensures NextAfter(key, i, p)
    {
      EntryKept(i);
    }

    lemma Traversed(keys: seq<Key>, ps: seq<int>)
      requires Valid() && Yielded(keys, ps, |items| + |nodes|)
      ensures forall i, j :: 0 <= i < j < |keys| ==> keys[i] != keys[j]
      ensures forall k :: k in keys <==> !ValueAt(k).Nil?
    {
      forall i, j | 0 <= i < j < |keys| ensures keys[i] != keys[j] { EntryKept(ps[i]); }
      forall k ensures k in keys <==> !ValueAt(k).Nil? {
        if k in keys {
          var i :| 0 <= i < |keys| && keys[i] == k;
          EntryKept(ps[i]);
        }
        if !ValueAt(k).Nil? {
          var q := PositionOf(k);
          assert q in ps;
        }
      }
    }

    lemma PositionOf(k: Key) returns (q: nat)
      requires Valid() && !ValueAt(k).Nil?
      ensures q < |items| + |nodes| && KeyAt(q) == k && EntryAt(q) == ValueAt(k)
    {
      if InArrayPart(k) {
        q := ArrayIndex(k) - 1;
      } else {
        var i :| 0 <= i < |nodes| && nodes[i].key == k;
        q := |items| + i;
        EntryKept(q);
      }
    }

    // ---------- length ----------

    ghost function IntAt(k: int): Value
      reads this`items, this`nodes
    {
      ValueAt(Number(k as real))
    }

    // t[n] is there, unless n is 0, and t[n + 1] is not.
    ghost predicate Border(n: int)
      reads this`items, this`nodes
    {
      n >= 0 && (n > 0 ==> !IntAt(n).Nil?) && IntAt(n + 1).Nil?
    }

    method GetInt(k: int) returns (v: Value)
      requires Valid() && 0 < k <= MAX_INT
      ensures v == IntAt(k)
    {
      hide Valid, Missing, ValueAt, ArrayIndex;
      IntIndex(k);
      var s := GetNum(k);
      SlotIs(s, Number(k as real));
      v := SlotValue(s);
    }

    method GetN() returns (n: nat)
      requires Valid()
      ensures Border(n)
    {
      var j := |items|;
      SmallSize();
      ItemValues();
      if j > 0 && items[j - 1].Nil? {
        var i := 0;
        while j - i > 1
          invariant 0 <= i < j <= |items| && IntAt(j).Nil? && (i > 0 ==> !IntAt(i).Nil?)
        {
          var m := (i + j) / 2;
          if items[m - 1].Nil? { j := m; } else { i := m; }
        }
        return i;
      } else if dummy {
        IntIndex(j + 1);
        return j;
      } else {
        n := UnboundSearch(j);
      }
    }

    // Doubles j until t[j] is nil and searches below it; a table built so that
    // j overflows is searched one by one.
    method UnboundSearch(start: nat) returns (n: nat)
      requires Valid() && start <= MAXASIZE && (start > 0 ==> !IntAt(start).Nil?)
      ensures Border(n)
    {
      var i, j := start, start + 1;
      SmallSize();
      var v := GetInt(j);
      while !v.Nil?
        invariant 0 <= i < j <= MAX_INT && (i > 0 ==> !IntAt(i).Nil?) && v == IntAt(j)
        decreases MAX_INT - j
      {
        i := j;
        j := j * 2;
        if j > MAX_INT {
          n := LinearSearch();
          return;
        }
        v := GetInt(j);
      }
      while j - i > 1
        invariant 0 <= i < j <= MAX_INT && IntAt(j).Nil? && (i > 0 ==> !IntAt(i).Nil?)
      {
        var m := (i + j) / 2;
        v := GetInt(m);
        if v.Nil? { j := m; } else { i := m; }
      }
      return i;
    }

    method LinearSearch() returns (n: nat)
      requires Valid()
      ensures Border(n) && forall k :: 0 < k <= n ==> !IntAt(k).Nil?
    {
      var i := 1;
      SmallSize();
      var v := GetInt(i);
      while !v.Nil?
        invariant 0 < i <= |items| + |nodes| + 1 && v == IntAt(i)
        invariant forall k :: 0 < k < i ==> !IntAt(k).Nil?
        decreases |items| + |nodes| + 1 - i
      {
        RunBounded(i);
        i := i + 1;
        v := GetInt(i);
      }
      return i - 1;
    }

    lemma ItemValues()
      requires |items| <= MAXASIZE
      ensures forall k :: 0 < k <= |items| ==> IntAt(k) == items[k - 1]
    {
      forall k | 0 < k <= |items| ensures IntAt(k) == items[k - 1] { IndexOf(k); }
    }

    // A table holds no more consecutive keys than it has places.
    lemma RunBounded(m: nat)
      requires Valid() && m <= MAX_INT && forall k :: 0 < k <= m ==> !IntAt(k).Nil?
      ensures m <= |items| + |nodes|
    {
      if m > |items| {
        forall k | |items| < k <= m ensures HoldsInt(nodes, k) {
          IntIndex(k);
          assert !IntAt(k).Nil?;
        }
        RunFits(nodes, |items|, m);
        NodesAtMost(nodes, |nodes|, |items|, m);
      }
    }

  }

  lemma CountedAll(items: seq<Value>, nodes: seq<Node>, key: Key, nums: seq<nat>)
    requires |nums| == MAXBITS + 1
    requires forall lg :: 0 <= lg <= MAXBITS ==>
               nums[lg] == ItemsIn(items, SliceLo(lg), Pow2(lg)) + NodesIn(nodes, |nodes|, SliceLo(lg), Pow2(lg))
                           + if Within(key, SliceLo(lg), Pow2(lg)) then 1 else 0
    ensures Counted(items, nodes, key, nums)
  {
  }

  lemma NoneOutside(nodes: seq<Node>)
    ensures NodesOutside(nodes, 0, 0) == 0
  {
  }

  lemma NoneInUse(items: seq<Value>, nodes: seq<Node>, key: Key)
    ensures InUse(items, nodes, key, 0) == 0
  {
    NoNodes(nodes, |nodes|, 0);
  }

  lemma SliceCounted(items: seq<Value>, lg: nat, start: nat, lim: nat)
    requires start == (if SliceLo(lg) < |items| then SliceLo(lg) else |items|)
    requires lim == (if Pow2(lg) < |items| then Pow2(lg) else |items|)
    ensures ItemsIn(items, 0, lim) == ItemsIn(items, 0, start) + ItemsIn(items, start, lim)
    ensures ItemsIn(items, SliceLo(lg), Pow2(lg)) == ItemsIn(items, start, lim)
  {
    SliceOrder(lg);
    ItemsSplit(items, 0, start, lim);
    if SliceLo(lg) < |items| {
      ItemsSplit(items, start, lim, Pow2(lg));
      ItemsBound(items, lim, Pow2(lg));
    } else {
      ItemsBound(items, SliceLo(lg), Pow2(lg));
    }
  }

  lemma NoMoreItems(items: seq<Value>, lg: nat)
    requires |items| <= SliceLo(lg)
    ensures forall l :: lg <= l <= MAXBITS ==> ItemsIn(items, SliceLo(l), Pow2(l)) == 0
  {
    forall l | lg <= l <= MAXBITS ensures ItemsIn(items, SliceLo(l), Pow2(l)) == 0 {
      if lg < l {
        if lg == 0 { assert SliceLo(lg) == 0; } else { Pow2Grows(lg - 1, l - 1); }
      }
      ItemsBound(items, SliceLo(l), Pow2(l));
    }
  }

  lemma SliceTooLarge(c: nat)
    requires c > MAXBITS
    ensures SliceLo(c) >= MAXASIZE
  {
    if MAXBITS < c - 1 { Pow2Grows(MAXBITS, c - 1); }
  }

  lemma SliceFits(c: nat)
    requires c <= MAXBITS
    ensures Pow2(c) <= MAXASIZE
  {
    if c < MAXBITS { Pow2Grows(c, MAXBITS); }
  }

  // What is known of the parts of a table about to be resized.
  ghost predicate OldTable(oldItems: seq<Value>, oldNodes: seq<Node>) {
    && KeysApart(oldNodes)
    && forall j :: 0 <= j < |oldNodes| ==>
         !oldNodes[j].key.NaN? && (oldNodes[j].key.NilKey? ==> oldNodes[j].val.Nil?)
           && !(1 <= ArrayIndex(oldNodes[j].key) <= |oldItems|)
  }

  // The value at k while items from place i on and the first j nodes are still to be moved.
  ghost function Moved(oldItems: seq<Value>, oldNodes: seq<Node>, i: nat, j: nat, k: Key): Value
    requires j <= |oldNodes|
  {
    if i < ArrayIndex(k) <= |oldItems| || exists q :: 0 <= q < j && oldNodes[q].key == k then Nil
    else Lookup(oldItems, oldNodes, k)
  }

  lemma AllMoved(oldItems: seq<Value>, oldNodes: seq<Node>, i: nat)
    requires |oldItems| <= i
    ensures forall k :: Moved(oldItems, oldNodes, i, 0, k) == Lookup(oldItems, oldNodes, k)
    ensures NodesOutside(oldNodes, 0, 0) == 0
  {
  }

  lemma IndexOf(i: nat)
    requires i <= MAXASIZE
    ensures ArrayIndex(Number(i as real)) == i
    ensures forall k :: ArrayIndex(k) == i && i > 0 ==> k == Number(i as real)
  {
    SmallSize();
  }

  lemma IntIndex(k: int)
    requires 0 < k <= MAX_INT
    ensures ArrayIndex(Number(k as real)) == k
  {
  }

  lemma SmallSize()
    ensures MAXASIZE == 0x400_0000
  {
    assert Pow2(8) == 256 && Pow2(16) == 0x1_0000 && Pow2(24) == 0x100_0000;
  }

  lemma StartMoving(oldItems: seq<Value>, oldNodes: seq<Node>, items: seq<Value>, nodes: seq<Node>, nasize: nat)
    requires OldTable(oldItems, oldNodes) && |items| == nasize
    requires forall i :: 0 <= i < nasize ==> items[i] == if i < |oldItems| then oldItems[i] else Nil
    requires forall i :: 0 <= i < |nodes| ==> nodes[i] == Node(NilKey, Nil, NULL)
    ensures forall k :: Lookup(items, nodes, k) == Moved(oldItems, oldNodes, nasize, |oldNodes|, k)
    ensures Used(nodes, |nodes|) == 0
  {
    NoneUsed(nodes, |nodes|);
  }

  // After the item at place i was moved, if it had a value.
  lemma ItemMoved(oldItems: seq<Value>, oldNodes: seq<Node>, i: nat)
    requires OldTable(oldItems, oldNodes) && i < |oldItems| <= MAXASIZE
    ensures forall k :: k != Number((i + 1) as real) ==>
              Moved(oldItems, oldNodes, i + 1, |oldNodes|, k) == Moved(oldItems, oldNodes, i, |oldNodes|, k)
    ensures Moved(oldItems, oldNodes, i + 1, |oldNodes|, Number((i + 1) as real)) == oldItems[i]
    ensures Moved(oldItems, oldNodes, i, |oldNodes|, Number((i + 1) as real)) == Nil
  {
    IndexOf(i + 1);
  }

  lemma NodeMoved(oldItems: seq<Value>, oldNodes: seq<Node>, i: nat, j: nat)
    requires OldTable(oldItems, oldNodes) && |oldItems| <= i && 0 < j <= |oldNodes|
    ensures var key := oldNodes[j - 1].key;
            && (forall k :: k != key ==> Moved(oldItems, oldNodes, i, j - 1, k) == Moved(oldItems, oldNodes, i, j, k))
            && (!key.NilKey? ==> Moved(oldItems, oldNodes, i, j - 1, key) == oldNodes[j - 1].val)
            && Moved(oldItems, oldNodes, i, j, key) == Nil
            && (key.NilKey? ==> Moved(oldItems, oldNodes, i, j - 1, key) == Nil)
  {
  }

  lemma {:induction false} AtMostUsed(nodes: seq<Node>, n: nat, size: nat)
    requires n <= |nodes|
    ensures NodesOutside(nodes, n, size) <= n
  {
    if n > 0 { AtMostUsed(nodes, n - 1, size); }
  }

  lemma NoneOutsideDummy(nodes: seq<Node>, size: nat)
    requires nodes == [Node(NilKey, Nil, NULL)]
    ensures NodesOutside(nodes, |nodes|, size) == 0
  {
    assert NodesOutside(nodes, 0, size) == 0;
  }

  lemma ItemStored(items: seq<Value>, nodes: seq<Node>, key: Key, v: Value)
    requires 1 <= ArrayIndex(key) <= |items|
    ensures var items' := items[ArrayIndex(key) - 1 := v];
            Lookup(items', nodes, key) == v
              && forall k :: k != key ==> Lookup(items', nodes, k) == Lookup(items, nodes, k)
  {
    var items' := items[ArrayIndex(key) - 1 := v];
    forall k | k != key ensures Lookup(items', nodes, k) == Lookup(items, nodes, k) {
      if 1 <= ArrayIndex(k) <= |items| { assert ArrayIndex(k) != ArrayIndex(key); }
    }
  }

  lemma NodeStored(nh: NumHash, items: seq<Value>, nodes: seq<Node>, at: seq<Place>, i: nat, v: Value)
    requires KeysPlaced(nh, nodes, at) && i < |nodes| && !nodes[i].key.NilKey?
             && !(1 <= ArrayIndex(nodes[i].key) <= |items|)
    ensures var nodes' := nodes[i := nodes[i].(val := v)];
            && Lookup(items, nodes', nodes[i].key) == v
            && forall k :: k != nodes[i].key ==> Lookup(items, nodes', k) == Lookup(items, nodes, k)
  {
    hide KeyPlaced;
    var nodes' := nodes[i := nodes[i].(val := v)];
    assert nodes'[i].key == nodes[i].key && forall j :: 0 <= j < |nodes| ==> nodes'[j].key == nodes[j].key;
    forall k | k != nodes[i].key ensures Lookup(items, nodes', k) == Lookup(items, nodes, k) {
      LookupOther(items, nodes, nodes', i, k);
    }
  }

  lemma LookupOther(items: seq<Value>, nodes: seq<Node>, nodes': seq<Node>, i: nat, k: Key)
    requires |nodes'| == |nodes| && i < |nodes| && k != nodes[i].key && KeysApart(nodes) && KeysApart(nodes')
    requires (forall j :: 0 <= j < |nodes| ==>
               nodes'[j].key == nodes[j].key && (j != i ==> nodes'[j].val == nodes[j].val))
    requires forall j :: 0 <= j < |nodes| && nodes[j].key.NilKey? ==> nodes[j].val.Nil?
    ensures Lookup(items, nodes', k) == Lookup(items, nodes, k)
  {
    if !(1 <= ArrayIndex(k) <= |items|) && exists j :: 0 <= j < |nodes| && nodes[j].key == k {
      var j :| 0 <= j < |nodes| && nodes[j].key == k;
      assert nodes'[j].key == k;
    }
  }

  // A value changed in a node whose key stays.
  lemma ValueStored(nh: NumHash, nodes: seq<Node>, at: seq<Place>, i: nat, v: Value)
    requires Linked(nodes, at) && KeysPlaced(nh, nodes, at) && i < |nodes| && !nodes[i].key.NilKey?
    ensures var nodes' := nodes[i := nodes[i].(val := v)]; Linked(nodes', at) && KeysPlaced(nh, nodes', at)
  {
    var nodes' := nodes[i := nodes[i].(val := v)];
    forall j | 0 <= j < |nodes| ensures LinkedAt(nodes', at, j) { assert LinkedAt(nodes, at, j); }
    forall j | 0 <= j < |nodes| && !nodes'[j].key.NilKey? ensures KeyPlaced(nh, nodes', at, j) {
      assert KeyPlaced(nh, nodes, at, j);
    }
  }

  // A key was inserted at node i; the free nodes left were free before.
  ghost predicate Inserted(nh: NumHash, items: seq<Value>, ns: seq<Node>, nodes: seq<Node>, at: seq<Place>, key: Key,
                           i: int, f: int) {
    && Linked(nodes, at) && KeysPlaced(nh, nodes, at) && |nodes| == |ns| && 0 <= i < |nodes|
    && nodes[i].key == key && nodes[i].val.Nil?
    && (forall k :: Lookup(items, nodes, k) == Lookup(items, ns, k))
    && (forall j :: 0 <= j < |nodes| ==>
      nodes[j].key == key || nodes[j].key.NilKey? || exists l :: 0 <= l < |ns| && ns[l].key == nodes[j].key)
    && (forall j :: 0 <= j < |nodes| && nodes[j].key.NilKey? ==> ns[j].key.NilKey? && j != f)
    && (forall j :: 0 <= j < |nodes| && nodes[j].key.NilKey? ==> nodes[j].val.Nil?)
    && Used(nodes, |nodes|) <= Used(ns, |ns|) + 1
  }

  lemma InsertedParts(nh: NumHash, items: seq<Value>, ns: seq<Node>, nodes: seq<Node>, at: seq<Place>, key: Key, i: int,
                      f: int)
    requires Inserted(nh, items, ns, nodes, at, key, i, f) && !(1 <= ArrayIndex(key) <= |items|)
    requires forall j :: 0 <= j < |ns| ==> !(1 <= ArrayIndex(ns[j].key) <= |items|)
    ensures Linked(nodes, at) && KeysPlaced(nh, nodes, at) && |nodes| == |ns| && 0 <= i < |nodes|
    ensures nodes[i].key == key && nodes[i].val.Nil? && Used(nodes, |nodes|) <= Used(ns, |ns|) + 1
    ensures forall k :: Lookup(items, nodes, k) == Lookup(items, ns, k)
    ensures forall j :: 0 <= j < |nodes| ==> !(1 <= ArrayIndex(nodes[j].key) <= |items|)
    ensures forall j :: 0 <= j < |nodes| && !ns[j].key.NilKey? ==> !nodes[j].key.NilKey?
    ensures 0 <= f < |nodes| ==> !nodes[f].key.NilKey?
  {
  }

  lemma Placed(nh: NumHash, nodes: seq<Node>, at: seq<Place>)
    requires KeysPlaced(nh, nodes, at)
    ensures |at| == |nodes| > 0 && (forall i :: 0 <= i < |nodes| && nodes[i].key.NilKey? ==> nodes[i].val.Nil?)
    ensures forall i :: 0 <= i < |nodes| && !nodes[i].key.NilKey? ==>
              UpTo(at[MainPosition(nh, |nodes|, nodes[i].key)], at[i])
  {
    forall i | 0 <= i < |nodes| && !nodes[i].key.NilKey?
      ensures UpTo(at[MainPosition(nh, |nodes|, nodes[i].key)], at[i])
    {
      assert KeyPlaced(nh, nodes, at, i);
    }
  }

  lemma FreeNotLinked(nodes: seq<Node>, at: seq<Place>, p: nat, f: nat, nh: NumHash)
    requires Linked(nodes, at) && KeysPlaced(nh, nodes, at) && p < |nodes| && f < |nodes|
    requires nodes[f].key.NilKey? && nodes[p].next != NULL
    ensures p != f && nodes[p].next != p && nodes[p].next != f && 0 <= nodes[p].next < |nodes|
  {
    assert LinkedAt(nodes, at, p);
  }

  lemma Displaced(nh: NumHash, items: seq<Value>, ns: seq<Node>, olds: seq<Place>, key: Key, p: nat, f: nat,
                  nodes: seq<Node>, at: seq<Place>)
    requires Linked(ns, olds) && KeysPlaced(nh, ns, olds) && p < |ns| && f < |ns| && ns[f].key.NilKey?
    requires !key.NilKey? && !key.NaN? && forall i :: 0 <= i < |ns| ==> ns[i].key != key
    requires var m := MainPosition(nh, |ns|, key);
             && !ns[m].key.NilKey? && MainPosition(nh, |ns|, ns[m].key) != m && ns[p].next == m && p != f
             && nodes == ns[p := ns[p].(next := f)][f := ns[m]][m := Node(key, Nil, NULL)]
             && at == olds[f := olds[m]][m := Place(UnusedChain(olds), 0.0)]
    ensures Inserted(nh, items, ns, nodes, at, key, MainPosition(nh, |ns|, key), f)
  {
    hide Linked, KeyPlaced, Lookup, Entry;
    var m := MainPosition(nh, |ns|, key);
    Displace(nh, ns, olds, key, p, f, UnusedChain(olds), nodes, at);
    SameEntries(ns, nodes, m, f);
    SameLookups(items, ns, nodes);
    UsedMore(ns, nodes, f, |ns|);
    forall j | 0 <= j < |nodes| && !nodes[j].key.NilKey? && nodes[j].key != key
      ensures exists l :: 0 <= l < |ns| && ns[l].key == nodes[j].key
    {
      assert ns[if j == f then m else j].key == nodes[j].key;
    }
  }

  lemma Appended(nh: NumHash, items: seq<Value>, ns: seq<Node>, olds: seq<Place>, key: Key, f: nat, nodes: seq<Node>,
                 at: seq<Place>)
    requires Linked(ns, olds) && KeysPlaced(nh, ns, olds) && f < |ns| && ns[f].key.NilKey?
    requires !key.NilKey? && !key.NaN? && forall i :: 0 <= i < |ns| ==> ns[i].key != key
    requires var m := MainPosition(nh, |ns|, key);
             && !ns[m].key.NilKey? && MainPosition(nh, |ns|, ns[m].key) == m
             && nodes == ns[f := Node(key, Nil, ns[m].next)][m := ns[m].(next := f)]
             && at == olds[f := PlaceBehind(ns, olds, m)]
    ensures Inserted(nh, items, ns, nodes, at, key, f, f)
  {
    hide Linked, KeyPlaced, Lookup, Entry;
    Append(nh, ns, olds, key, f, nodes, at);
    SameEntries(ns, nodes, f, f);
    SameLookups(items, ns, nodes);
    UsedMore(ns, nodes, f, |ns|);
  }

  lemma Reused(nh: NumHash, items: seq<Value>, ns: seq<Node>, at: seq<Place>, key: Key, nodes: seq<Node>)
    requires Linked(ns, at) && KeysPlaced(nh, ns, at)
    requires !key.NilKey? && !key.NaN? && forall i :: 0 <= i < |ns| ==> ns[i].key != key
    requires var m := MainPosition(nh, |ns|, key); ns[m].val.Nil? && nodes == ns[m := ns[m].(key := key)]
    ensures Inserted(nh, items, ns, nodes, at, key, MainPosition(nh, |ns|, key), MainPosition(nh, |ns|, key))
  {
    hide Linked, KeyPlaced, Lookup, Entry;
    var m := MainPosition(nh, |ns|, key);
    Reuse(nh, ns, at, key, nodes);
    SameEntries(ns, nodes, m, m);
    SameLookups(items, ns, nodes);
    UsedMore(ns, nodes, m, |ns|);
  }

  ghost function UnusedChain(at: seq<Place>): (c: int)
    ensures forall i :: 0 <= i < |at| ==> at[i].chain != c
  {
    ChainBound(at) + 1
  }

  ghost function ChainBound(at: seq<Place>): (c: int)
    ensures forall i :: 0 <= i < |at| ==> at[i].chain <= c
  {
    if at == [] then 0
    else
      var c, last := ChainBound(at[..|at| - 1]), at[|at| - 1].chain;
      if c < last then last else c
  }

  // All keys but the one at x were there before.
  lemma {:induction false} UsedMore(nodes: seq<Node>, nodes': seq<Node>, x: nat, n: nat)
    requires |nodes'| == |nodes| && n <= |nodes|
    requires forall i :: 0 <= i < |nodes| && i != x && !nodes'[i].key.NilKey? ==> !nodes[i].key.NilKey?
    ensures Used(nodes', n) <= Used(nodes, n) + if x < n then 1 else 0
  {
    if n > 0 { UsedMore(nodes, nodes', x, n - 1); }
  }

  // The nodes of the chain at or behind a place.
  ghost function Behind(at: seq<Place>, p: Place): set<Place> {
    set q | q in at && UpTo(p, q)
  }

  lemma BehindNext(at: seq<Place>, p: Place, q: Place)
    requires p in at && q in at && Before(p, q)
    ensures Behind(at, q) < Behind(at, p)
  {
    assert p in Behind(at, p) && p !in Behind(at, q);
  }
}
