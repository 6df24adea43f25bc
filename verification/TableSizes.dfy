// Choosing the size of the array part: the keys in use are counted in slices
// bounded by powers of two.
module TableSizes {
  import opened Chains
  import opened Powers

  const MAXBITS := 26

  const MAXASIZE := Pow2(MAXBITS)

  const MAX_INT := 0x7fff_ffff

  // The integer a number key stands for, or -1.
  function ArrayIndex(key: Key): int {
    if key.Number? && key.n.Floor as real == key.n && -MAX_INT - 1 <= key.n.Floor <= MAX_INT then key.n.Floor else -1
  }

  predicate Within(key: Key, lo: int, hi: int) { 0 < ArrayIndex(key) && lo < ArrayIndex(key) <= hi }

  // ---------- counting ----------

  // The non-nil values at places lo to hi of an array part; places behind its end count as nil.
  function ItemsIn(items: seq<Value>, lo: nat, hi: nat): nat
    decreases hi
  {
    if hi <= lo then 0
    else ItemsIn(items, lo, hi - 1) + if hi <= |items| && !items[hi - 1].Nil? then 1 else 0
  }

  // The entries among the first n nodes with a value and an integer key in (lo, hi].
  function NodesIn(nodes: seq<Node>, n: nat, lo: int, hi: int): nat
    requires n <= |nodes|
  {
    if n == 0 then 0
    else NodesIn(nodes, n - 1, lo, hi) + if !nodes[n - 1].val.Nil? && Within(nodes[n - 1].key, lo, hi) then 1 else 0
  }

  // The entries among the first n nodes with a value that an array part of the given size does not hold.
  function NodesOutside(nodes: seq<Node>, n: nat, size: int): nat
    requires n <= |nodes|
  {
    if n == 0 then 0
    else
      NodesOutside(nodes, n - 1, size)
      + if !nodes[n - 1].val.Nil? && !Within(nodes[n - 1].key, 0, size) then 1 else 0
  }

  function Used(nodes: seq<Node>, n: nat): nat
    requires n <= |nodes|
  {
    if n == 0 then 0 else Used(nodes, n - 1) + if nodes[n - 1].key.NilKey? then 0 else 1
  }

  lemma {:induction false} ItemsSplit(items: seq<Value>, lo: nat, mid: nat, hi: nat)
    requires lo <= mid <= hi
    ensures ItemsIn(items, lo, hi) == ItemsIn(items, lo, mid) + ItemsIn(items, mid, hi)
    decreases hi
  {
    if mid < hi { ItemsSplit(items, lo, mid, hi - 1); }
  }

  lemma {:induction false} ItemsBound(items: seq<Value>, lo: nat, hi: nat)
    ensures ItemsIn(items, lo, hi) <= if hi <= lo then 0 else hi - lo
    ensures |items| <= lo ==> ItemsIn(items, lo, hi) == 0
    decreases hi
  {
    if lo < hi { ItemsBound(items, lo, hi - 1); }
  }

  lemma {:induction false} NodesSplit(nodes: seq<Node>, n: nat, lo: int, mid: int, hi: int)
    requires n <= |nodes| && lo <= mid <= hi
    ensures NodesIn(nodes, n, lo, hi) == NodesIn(nodes, n, lo, mid) + NodesIn(nodes, n, mid, hi)
  {
    if n > 0 { NodesSplit(nodes, n - 1, lo, mid, hi); }
  }

  lemma {:induction false} NodesAll(nodes: seq<Node>, n: nat, size: int)
    requires n <= |nodes| && size >= 0
    ensures NodesIn(nodes, n, 0, size) + NodesOutside(nodes, n, size) == NodesOutside(nodes, n, 0)
  {
    if n > 0 { NodesAll(nodes, n - 1, size); }
  }

  ghost predicate DistinctKeys(nodes: seq<Node>) {
    forall i, j :: 0 <= i < j < |nodes| && !nodes[i].key.NilKey? ==> nodes[i].key != nodes[j].key
  }

  // At most one node holds a given integer key.
  lemma {:induction false} OneNode(nodes: seq<Node>, n: nat, k: int)
    requires n <= |nodes| && DistinctKeys(nodes)
    ensures NodesIn(nodes, n, k - 1, k) <= 1
    ensures NodesIn(nodes, n, k - 1, k) == 1 ==> exists i :: 0 <= i < n && ArrayIndex(nodes[i].key) == k
  {
    if n > 0 {
      OneNode(nodes, n - 1, k);
    }
  }

  lemma {:induction false} NodesBound(nodes: seq<Node>, lo: int, hi: int)
    requires DistinctKeys(nodes) && lo <= hi
    ensures NodesIn(nodes, |nodes|, lo, hi) <= hi - lo
    decreases hi - lo
  {
    if lo == hi {
      NoNodes(nodes, |nodes|, lo);
    } else {
      NodesBound(nodes, lo, hi - 1);
      NodesSplit(nodes, |nodes|, lo, hi - 1, hi);
      OneNode(nodes, |nodes|, hi);
    }
  }

  lemma {:induction false} NoNodes(nodes: seq<Node>, n: nat, lo: int)
    requires n <= |nodes|
    ensures NodesIn(nodes, n, lo, lo) == 0
  {
    if n > 0 { NoNodes(nodes, n - 1, lo); }
  }

  lemma {:induction false} NoneWithin(nodes: seq<Node>, n: nat, lo: int, hi: int)
    requires n <= |nodes| && forall i :: 0 <= i < n ==> !Within(nodes[i].key, lo, hi)
    ensures NodesIn(nodes, n, lo, hi) == 0
  {
    if n > 0 { NoneWithin(nodes, n - 1, lo, hi); }
  }

  lemma {:induction false} SomeUnused(nodes: seq<Node>, n: nat)
    requires n <= |nodes| && Used(nodes, n) < n
    ensures exists i :: 0 <= i < n && nodes[i].key.NilKey?
  {
    if !nodes[n - 1].key.NilKey? { SomeUnused(nodes, n - 1); }
  }

  lemma {:induction false} UsedUpdate(nodes: seq<Node>, n: nat, i: nat, x: Node)
    requires n <= |nodes| && i < |nodes|
    ensures Used(nodes[i := x], n) ==
            Used(nodes, n) + if i < n && nodes[i].key.NilKey? && !x.key.NilKey? then 1
                             else if i < n && !nodes[i].key.NilKey? && x.key.NilKey? then -1 else 0
  {
    if n > 0 { UsedUpdate(nodes, n - 1, i, x); }
  }

  lemma {:induction false} NoneUsed(nodes: seq<Node>, n: nat)
    requires n <= |nodes| && forall i :: 0 <= i < n ==> nodes[i].key.NilKey?
    ensures Used(nodes, n) == 0
  {
    if n > 0 { NoneUsed(nodes, n - 1); }
  }

  lemma NodesStep(nodes: seq<Node>, i: nat, lo: int, hi: int)
    requires i < |nodes|
    ensures NodesIn(nodes, i + 1, lo, hi) ==
            NodesIn(nodes, i, lo, hi) + if !nodes[i].val.Nil? && Within(nodes[i].key, lo, hi) then 1 else 0
    ensures NodesOutside(nodes, i + 1, 0) == NodesOutside(nodes, i, 0) + if nodes[i].val.Nil? then 0 else 1
    ensures NodesIn(nodes, 0, lo, hi) == 0 && NodesOutside(nodes, 0, 0) == 0
  {
  }

  lemma {:induction false} NodesAtMost(nodes: seq<Node>, n: nat, lo: int, hi: int)
    requires n <= |nodes|
    ensures NodesIn(nodes, n, lo, hi) <= n
  {
    if n > 0 { NodesAtMost(nodes, n - 1, lo, hi); }
  }

  lemma {:induction false} NodeCounts(nodes: seq<Node>, n: nat, i: nat, lo: int, hi: int)
    requires i < n <= |nodes| && !nodes[i].val.Nil? && Within(nodes[i].key, lo, hi)
    ensures NodesIn(nodes, n, lo, hi) >= 1
  {
    if i < n - 1 { NodeCounts(nodes, n - 1, i, lo, hi); }
  }

  ghost predicate HoldsInt(nodes: seq<Node>, k: int) {
    exists i :: 0 <= i < |nodes| && !nodes[i].val.Nil? && ArrayIndex(nodes[i].key) == k
  }

  // A run of consecutive keys in the hash part is no longer than the hash part.
  lemma {:induction false} RunFits(nodes: seq<Node>, lo: nat, hi: nat)
    requires lo <= hi
    requires forall k :: lo < k <= hi ==> HoldsInt(nodes, k)
    ensures NodesIn(nodes, |nodes|, lo, hi) >= hi - lo
    decreases hi
  {
    if lo < hi {
      RunFits(nodes, lo, hi - 1);
      NodesSplit(nodes, |nodes|, lo, hi - 1, hi);
      assert HoldsInt(nodes, hi);
      var i :| 0 <= i < |nodes| && !nodes[i].val.Nil? && ArrayIndex(nodes[i].key) == hi;
      NodeCounts(nodes, |nodes|, i, hi - 1, hi);
    }
  }

  // ---------- slices ----------

  lemma PowStep(lg: nat)
    ensures Pow2(lg + 1) == 2 * Pow2(lg) && SliceLo(lg + 1) == Pow2(lg) && SliceLo(0) == 0 && Pow2(0) == 1
  {
  }

  // Slice lg is (SliceLo(lg), Pow2(lg)].
  function SliceLo(lg: nat): nat { if lg == 0 then 0 else Pow2(lg - 1) }

  function CeilLog2(k: nat): (lg: nat)
    requires k > 0
    ensures SliceLo(lg) < k <= Pow2(lg)
  {
    CeilLog2From(k, 0)
  }

  function CeilLog2From(k: nat, lg: nat): (r: nat)
    requires k > SliceLo(lg)
    ensures SliceLo(r) < k <= Pow2(r)
    decreases k - SliceLo(lg)
  {
    if k <= Pow2(lg) then lg else CeilLog2From(k, lg + 1)
  }

  // A key lies in slice lg exactly when lg is its rounded-up logarithm.
  lemma InSlice(k: nat, lg: nat)
    requires k > 0
    ensures SliceLo(lg) < k <= Pow2(lg) <==> lg == CeilLog2(k)
  {
    var c := CeilLog2(k);
    if lg < c {
      if lg < c - 1 { Pow2Grows(lg, c - 1); }
    } else if lg > c {
      if c < lg - 1 { Pow2Grows(c, lg - 1); }
    }
  }

  function Sum(nums: seq<nat>, n: nat): nat
    requires n <= |nums|
  {
    if n == 0 then 0 else Sum(nums, n - 1) + nums[n - 1]
  }

  lemma {:induction false} SumGrows(nums: seq<nat>, n: nat, m: nat)
    requires n <= m <= |nums|
    ensures Sum(nums, n) <= Sum(nums, m)
    decreases m
  {
    if n < m { SumGrows(nums, n, m - 1); }
  }

  // More than half of the keys 1 to 2^i are in use.
  predicate Worthwhile(nums: seq<nat>, i: nat)
    requires i < |nums|
  {
    Sum(nums, i + 1) > Pow2(i) / 2
  }

  // n is the largest worthwhile size, na how many keys it covers.
  ghost predicate Best(nums: seq<nat>, n: nat, na: nat) { BestOf(nums, |nums|, n, na) }

  // The same of the first m sizes.
  ghost predicate BestOf(nums: seq<nat>, m: nat, n: nat, na: nat)
    requires m <= |nums|
  {
    (n == 0 && na == 0 && forall i :: 0 <= i < m ==> !Worthwhile(nums, i))
    || exists i :: 0 <= i < m && BestAt(nums, m, n, na, i)
  }

  ghost predicate BestAt(nums: seq<nat>, m: nat, n: nat, na: nat, i: nat)
    requires i < m <= |nums|
  {
    n == Pow2(i) && na == Sum(nums, i + 1) && Worthwhile(nums, i) && forall j :: i < j < m ==> !Worthwhile(nums, j)
  }

  // The slices add up to narray keys, and to no more than places in any of the sizes.
  ghost predicate Summed(nums: seq<nat>, narray: nat) {
    && |nums| == MAXBITS + 1 && narray == Sum(nums, MAXBITS + 1)
    && forall i :: 0 <= i <= MAXBITS ==> Sum(nums, i + 1) <= Pow2(i)
  }

  // n is a power of two more than half in use, or 0, and no larger one is; na keys are in use up to n.
  ghost predicate SizeFor(items: seq<Value>, nodes: seq<Node>, key: Key, n: nat, na: nat) {
    && n <= MAXASIZE && na == InUse(items, nodes, key, n) && NoneBetter(items, nodes, key, n)
    && (n > 0 ==> na > n / 2 && exists i :: 0 <= i <= MAXBITS && n == Pow2(i))
  }

  // The keys in use that an array part could hold.
  function IntKeys(items: seq<Value>, nodes: seq<Node>, key: Key): nat {
    ItemsIn(items, 0, |items|) + NodesIn(nodes, |nodes|, 0, MAXASIZE) + if Within(key, 0, MAXASIZE) then 1 else 0
  }

  // No larger size is more than half in use.
  ghost predicate NoneBetter(items: seq<Value>, nodes: seq<Node>, key: Key, n: nat) {
    forall i :: 0 <= i <= MAXBITS && Pow2(i) > n ==> InUse(items, nodes, key, Pow2(i)) <= Pow2(i) / 2
  }

  // The largest worthwhile size, and how many keys it covers. Empty slices are
  // skipped, and the search stops when all keys are counted.
  method ComputeSizes(nums: seq<nat>, narray: nat) returns (n: nat, na: nat)
    requires Summed(nums, narray)
    ensures Best(nums, n, na)
  {
    hide BestOf, BestAt;
    var i, twotoi, a := 0, 1, 0;
    na, n := 0, 0;
    BestOfNone(nums);
    while twotoi / 2 < narray
      invariant 0 <= i <= MAXBITS + 1 && twotoi == Pow2(i) && a == Sum(nums, i)
      invariant i == MAXBITS + 1 ==> narray <= twotoi / 2
      invariant BestOf(nums, i, n, na)
      decreases MAXBITS + 1 - i
    {
      BestNext(nums, i, n, na);
      if nums[i] > 0 {
        a := a + nums[i];
        if a > twotoi / 2 {
          n, na := twotoi, a;
        }
      } else {
        EmptySlice(nums, i);
      }
      if a == narray {
        AllCounted(nums, i);
        BestOfAll(nums, i + 1, n, na);
        return;
      }
      i, twotoi := i + 1, twotoi * 2;
    }
    NoneLarger(nums, i);
    BestOfAll(nums, i, n, na);
  }

  lemma BestOfNone(nums: seq<nat>)
    ensures BestOf(nums, 0, 0, 0)
  {
  }

  lemma BestNext(nums: seq<nat>, m: nat, n: nat, na: nat)
    requires m < |nums| && BestOf(nums, m, n, na)
    ensures if Worthwhile(nums, m) then BestOf(nums, m + 1, Pow2(m), Sum(nums, m + 1)) else BestOf(nums, m + 1, n, na)
  {
    hide Worthwhile;
    if Worthwhile(nums, m) {
      assert BestAt(nums, m + 1, Pow2(m), Sum(nums, m + 1), m);
    } else if !(n == 0 && na == 0 && forall i :: 0 <= i < m ==> !Worthwhile(nums, i)) {
      var i :| 0 <= i < m && BestAt(nums, m, n, na, i);
      assert BestAt(nums, m + 1, n, na, i);
    }
  }

  // The keys below an empty slice fill at most half of the size it would end.
  lemma EmptySlice(nums: seq<nat>, i: nat)
    requires i < |nums| && nums[i] == 0 && forall j :: 0 <= j < i ==> Sum(nums, j + 1) <= Pow2(j)
    ensures !Worthwhile(nums, i)
  {
    assert Sum(nums, i + 1) == Sum(nums, i);
    if i > 0 {
      var j := i - 1;
      assert Sum(nums, j + 1) <= Pow2(j);
    }
  }

  lemma BestOfAll(nums: seq<nat>, m: nat, n: nat, na: nat)
    requires m <= |nums| && BestOf(nums, m, n, na) && forall j :: m <= j < |nums| ==> !Worthwhile(nums, j)
    ensures Best(nums, n, na)
  {
    if !(n == 0 && na == 0 && forall i :: 0 <= i < m ==> !Worthwhile(nums, i)) {
      var i :| 0 <= i < m && BestAt(nums, m, n, na, i);
      assert BestAt(nums, |nums|, n, na, i);
    }
  }

  lemma NoneLarger(nums: seq<nat>, i: nat)
    requires Sum(nums, |nums|) <= Pow2(i) / 2
    ensures forall j :: i <= j < |nums| ==> !Worthwhile(nums, j)
  {
    forall j | i <= j < |nums| ensures !Worthwhile(nums, j) {
      SumGrows(nums, j + 1, |nums|);
      if i < j { Pow2Grows(i, j); }
    }
  }

  lemma AllCounted(nums: seq<nat>, i: nat)
    requires i < |nums| && Sum(nums, i + 1) == Sum(nums, |nums|) <= Pow2(i)
    ensures forall j :: i < j < |nums| ==> !Worthwhile(nums, j)
  {
    forall j | i < j < |nums| ensures !Worthwhile(nums, j) {
      SumGrows(nums, i + 1, j + 1);
      SumGrows(nums, j + 1, |nums|);
      NotMore(nums, i, j, Sum(nums, |nums|));
    }
  }

  // All keys are within 2^i, so no larger size is more than half full.
  lemma NotMore(nums: seq<nat>, i: nat, j: nat, total: nat)
    requires i < j < |nums| && Sum(nums, i + 1) == Sum(nums, j + 1) == total <= Pow2(i)
    ensures !Worthwhile(nums, j)
  {
    if i < j - 1 { Pow2Grows(i, j - 1); }
  }

  // ---------- the keys of a table ----------

  // Keys 1 to n in use, counting the key about to be inserted.
  function InUse(items: seq<Value>, nodes: seq<Node>, key: Key, n: nat): nat {
    ItemsIn(items, 0, n) + NodesIn(nodes, |nodes|, 0, n) + if Within(key, 0, n) then 1 else 0
  }

  // nums counts the keys in use slice by slice.
  ghost predicate Counted(items: seq<Value>, nodes: seq<Node>, key: Key, nums: seq<nat>) {
    && |nums| == MAXBITS + 1
    && forall lg :: 0 <= lg <= MAXBITS ==>
         nums[lg] == ItemsIn(items, SliceLo(lg), Pow2(lg)) + NodesIn(nodes, |nodes|, SliceLo(lg), Pow2(lg))
                     + if Within(key, SliceLo(lg), Pow2(lg)) then 1 else 0
  }

  lemma {:induction false} CountedSum(items: seq<Value>, nodes: seq<Node>, key: Key, nums: seq<nat>, i: nat)
    requires Counted(items, nodes, key, nums) && i <= MAXBITS
    ensures Sum(nums, i + 1) == InUse(items, nodes, key, Pow2(i))
  {
    hide ArrayIndex, ItemsIn, NodesIn, Pow2;
    SliceOrder(i);
    CountedAt(items, nodes, key, nums, i);
    if i == 0 {
      assert SliceLo(0) == 0 && Sum(nums, 1) == Sum(nums, 0) + nums[0] == nums[0];
    } else {
      CountedSum(items, nodes, key, nums, i - 1);
      ItemsSplit(items, 0, SliceLo(i), Pow2(i));
      NodesSplit(nodes, |nodes|, 0, SliceLo(i), Pow2(i));
      assert Sum(nums, i + 1) == Sum(nums, i) + nums[i];
    }
  }

  lemma SliceOrder(lg: nat)
    ensures SliceLo(lg) < Pow2(lg)
  {
  }

  lemma CountedAt(items: seq<Value>, nodes: seq<Node>, key: Key, nums: seq<nat>, lg: nat)
    requires Counted(items, nodes, key, nums) && lg <= MAXBITS
    ensures nums[lg] == ItemsIn(items, SliceLo(lg), Pow2(lg)) + NodesIn(nodes, |nodes|, SliceLo(lg), Pow2(lg))
                        + if Within(key, SliceLo(lg), Pow2(lg)) then 1 else 0
  {
  }

  lemma {:induction false} NodesPrefix(nodes: seq<Node>, x: Node, n: nat, lo: int, hi: int)
    requires n <= |nodes|
    ensures NodesIn(nodes + [x], n, lo, hi) == NodesIn(nodes, n, lo, hi)
  {
    if n > 0 { NodesPrefix(nodes, x, n - 1, lo, hi); }
  }

  // Keys are distinct, so no more than n of 1 to n are in use.
  lemma InUseBound(items: seq<Value>, nodes: seq<Node>, key: Key, n: nat)
    requires DistinctKeys(nodes)
             && forall i :: 0 <= i < |nodes| ==> nodes[i].key != key && !Within(nodes[i].key, 0, |items|)
    requires !key.NilKey? && !Within(key, 0, |items|)
    ensures InUse(items, nodes, key, n) <= n
  {
    var m := if |items| < n then |items| else n;
    ItemsSplit(items, 0, m, n);
    ItemsBound(items, 0, m);
    ItemsBound(items, m, n);
    NoneWithin(nodes, |nodes|, 0, m);
    NodesSplit(nodes, |nodes|, 0, m, n);
    var x := Node(key, Data(0), NULL);
    NodesBound(nodes + [x], m, n);
    NodesPrefix(nodes, x, |nodes|, m, n);
  }

  // The keys an array part of size n does not hold are left to the hash part.
  lemma LeftOver(items: seq<Value>, nodes: seq<Node>, key: Key, n: nat)
    ensures ItemsIn(items, 0, |items|) + NodesOutside(nodes, |nodes|, 0) + 1 - InUse(items, nodes, key, n) ==
            ItemsIn(items, n, |items|) + NodesOutside(nodes, |nodes|, n) + if Within(key, 0, n) then 0 else 1
  {
    NodesAll(nodes, |nodes|, n);
    if n <= |items| {
      ItemsSplit(items, 0, n, |items|);
    } else {
      ItemsSplit(items, 0, |items|, n);
      ItemsBound(items, |items|, n);
      ItemsBound(items, n, |items|);
    }
  }
}
