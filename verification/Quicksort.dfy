// Sedgewick's quicksort: median of three, sentinels, recursion on the smaller half.
module Quicksort {
  import opened Powers

  ghost predicate StrictWeakOrder<T(!new)>(less: (T, T) -> bool) {
    && (forall x :: !less(x, x))
    && (forall x, y, z :: less(x, y) && less(y, z) ==> less(x, z))
    && (forall x, y, z :: less(x, z) ==> less(x, y) || less(y, z))
  }

  lemma NotLess<T(!new)>(less: (T, T) -> bool, x: T, y: T, z: T)
    requires StrictWeakOrder(less)
    ensures !less(x, x) && (less(x, y) ==> !less(y, x))
    ensures !less(x, y) && !less(y, z) ==> !less(x, z)
  {
  }

  // Nothing in places l to u is less than something before it.
  ghost predicate SortedIn<T>(s: seq<T>, less: (T, T) -> bool, l: int, u: int) {
    forall p, q :: 0 <= l <= p < q <= u < |s| ==> !less(s[q], s[p])
  }

  // t is s with the places l to u permuted.
  ghost predicate Shuffled<T>(s: seq<T>, t: seq<T>, l: int, u: int) {
    && |s| == |t| && 0 <= l <= u + 1 <= |s|
    && s[..l] == t[..l] && s[u + 1..] == t[u + 1..] && multiset(s[l..u + 1]) == multiset(t[l..u + 1])
  }

  lemma ShuffledWider<T>(s: seq<T>, t: seq<T>, l: int, u: int, l': int, u': int)
    requires Shuffled(s, t, l, u) && 0 <= l' <= l && u <= u' < |s|
    ensures Shuffled(s, t, l', u')
  {
    assert s[l'..l] == s[..l][l'..] && t[l'..l] == t[..l][l'..];
    assert s[u + 1..u' + 1] == s[u + 1..][..u' - u] && t[u + 1..u' + 1] == t[u + 1..][..u' - u];
    assert s[l'..u' + 1] == s[l'..l] + s[l..u + 1] + s[u + 1..u' + 1];
    assert t[l'..u' + 1] == t[l'..l] + t[l..u + 1] + t[u + 1..u' + 1];
    assert s[..l'] == s[..l][..l'] && t[..l'] == t[..l][..l'];
    assert s[u' + 1..] == s[u + 1..][u' - u..] && t[u' + 1..] == t[u + 1..][u' - u..];
  }

  lemma ShuffledSwap<T>(s: seq<T>, l: int, u: int, i: int, j: int)
    requires 0 <= l <= i <= u < |s| && l <= j <= u
    ensures Shuffled(s, s[i := s[j]][j := s[i]], l, u)
  {
    var t := s[i := s[j]][j := s[i]];
    var x := s[l..u + 1];
    assert t[l..u + 1] == x[i - l := x[j - l]][j - l := x[i - l]];
  }

  lemma ShuffledTwice<T>(s: seq<T>, t: seq<T>, r: seq<T>, l: int, u: int)
    requires Shuffled(s, t, l, u) && Shuffled(t, r, l, u)
    ensures Shuffled(s, r, l, u)
  {
  }

  lemma ShuffledSelf<T>(s: seq<T>, l: int, u: int)
    requires 0 <= l <= u + 1 <= |s|
    ensures Shuffled(s, s, l, u)
  {
  }

  // What holds of all values of a range holds of them in any order; other places do not change.
  lemma ShuffledAll<T>(s: seq<T>, t: seq<T>, l: int, u: int, q: T -> bool)
    requires Shuffled(s, t, l, u) && forall k :: l <= k <= u ==> q(s[k])
    ensures forall k :: l <= k <= u ==> q(t[k])
  {
    forall k | l <= k <= u ensures q(t[k]) {
      assert t[k] == t[l..u + 1][k - l];
      assert t[k] in multiset(t[l..u + 1]) && t[k] in multiset(s[l..u + 1]);
      var m :| 0 <= m < |s[l..u + 1]| && s[l..u + 1][m] == t[k];
    }
  }

  lemma ShuffledOutside<T>(s: seq<T>, t: seq<T>, l: int, u: int)
    requires Shuffled(s, t, l, u)
    ensures forall k :: 0 <= k < |s| && !(l <= k <= u) ==> t[k] == s[k]
  {
    forall k | 0 <= k < |s| && !(l <= k <= u) ensures t[k] == s[k] {
      if k < l { assert s[k] == s[..l][k] && t[k] == t[..l][k]; }
      else { assert s[k] == s[u + 1..][k - u - 1] && t[k] == t[u + 1..][k - u - 1]; }
    }
  }

  method Swap<T>(a: array<T>, i: int, j: int, ghost l: int, ghost u: int)
    requires 0 <= l <= i <= u < a.Length && l <= j <= u
    modifies a
    ensures a[i] == old(a[j]) && a[j] == old(a[i])
    ensures Shuffled(old(a[..]), a[..], l, u)
    ensures var s := old(a[..]); a[..] == s[i := s[j]][j := s[i]]
  {
    ghost var s := a[..];
    ShuffledSwap(s, l, u, i, j);
    a[i], a[j] := a[j], a[i];
    assert a[..] == s[i := s[j]][j := s[i]];
  }

  lemma SortedFew<T(!new)>(s: seq<T>, less: (T, T) -> bool, l: int, u: int)
    requires StrictWeakOrder(less) && 0 <= l < u < |s| && u - l <= 2
    requires !less(s[u], s[l]) && (u - l == 2 ==> !less(s[l + 1], s[l]) && !less(s[u], s[l + 1]))
    ensures SortedIn(s, less, l, u)
  {
  }

  // Puts the places l, (l + u) / 2 and u in order; ranges of two or three are then sorted.
  method OrderThree<T(!new)>(a: array<T>, less: (T, T) -> bool, l: int, u: int) returns (sorted: bool)
    requires StrictWeakOrder(less) && 0 <= l < u < a.Length
    modifies a
    ensures Shuffled(old(a[..]), a[..], l, u)
    ensures sorted <==> u - l <= 2
    ensures sorted ==> SortedIn(a[..], less, l, u)
    ensures !sorted ==> var m := (l + u) / 2; !less(a[m], a[l]) && !less(a[u], a[m])
  {
    hide StrictWeakOrder, Shuffled, SortedIn;
    ghost var s := a[..];
    ShuffledSelf(s, l, u);
    NotLess(less, a[u], a[l], a[l]);
    if less(a[u], a[l]) {
      Swap(a, l, u, l, u);
    }
    if u - l == 1 {
      SortedFew(a[..], less, l, u);
      return true;
    }
    var i := (l + u) / 2;
    OrderMiddle(a, less, l, i, u, s);
    if u - l == 2 {
      NotLess(less, a[u], a[i], a[l]);
      SortedFew(a[..], less, l, u);
    }
    return u - l == 2;
  }

  // Puts the middle place in order with the others, which are.
  method OrderMiddle<T(!new)>(a: array<T>, less: (T, T) -> bool, l: int, i: int, u: int, ghost s: seq<T>)
    requires StrictWeakOrder(less) && 0 <= l < i < u < a.Length && !less(a[u], a[l]) && Shuffled(s, a[..], l, u)
    modifies a
    ensures Shuffled(s, a[..], l, u) && !less(a[i], a[l]) && !less(a[u], a[i])
  {
    hide StrictWeakOrder, Shuffled;
    ghost var t := a[..];
    NotLess(less, a[i], a[l], a[l]);
    NotLess(less, a[u], a[i], a[l]);
    if less(a[i], a[l]) {
      Swap(a, i, l, l, u);
      ShuffledTwice(s, t, a[..], l, u);
    } else if less(a[u], a[i]) {
      Swap(a, i, u, l, u);
      ShuffledTwice(s, t, a[..], l, u);
    }
  }

  // Nothing in places l to i is greater than the pivot.
  ghost predicate NoneAbove<T>(s: seq<T>, less: (T, T) -> bool, pivot: T, l: int, i: int) {
    forall k :: 0 <= l <= k <= i < |s| ==> !less(pivot, s[k])
  }

  // Nothing in places j to u is less than the pivot.
  ghost predicate NoneBelow<T>(s: seq<T>, less: (T, T) -> bool, pivot: T, j: int, u: int) {
    forall k :: 0 <= j <= k <= u < |s| ==> !less(s[k], pivot)
  }

  // The first place from start on whose value is not less than the pivot; the
  // pivot itself, at u - 1, ends the scan.
  method ScanUp<T(!new)>(a: array<T>, less: (T, T) -> bool, pivot: T, start: int, u: int) returns (i: int)
    requires StrictWeakOrder(less) && 0 <= start < u < a.Length && a[u - 1] == pivot
    ensures start <= i <= u - 1 && !less(a[i], pivot)
    ensures NoneAbove(a[..], less, pivot, start, i - 1)
  {
    i := start;
    NotLess(less, pivot, pivot, pivot);
    while less(a[i], pivot)
      invariant start <= i <= u - 1 && NoneAbove(a[..], less, pivot, start, i - 1)
      decreases u - i
    {
      NotLess(less, a[i], pivot, pivot);
      if i > u { assert false; }
      i := i + 1;
    }
  }

  // The last place up to start whose value is not greater than the pivot; the
  // value at l, which is not, ends the scan.
  method ScanDown<T(!new)>(a: array<T>, less: (T, T) -> bool, pivot: T, l: int, start: int) returns (j: int)
    requires StrictWeakOrder(less) && 0 <= l <= start < a.Length && !less(pivot, a[l])
    ensures l <= j <= start && !less(pivot, a[j])
    ensures NoneBelow(a[..], less, pivot, j + 1, start)
  {
    j := start;
    while less(pivot, a[j])
      invariant l <= j <= start && NoneBelow(a[..], less, pivot, j + 1, start)
      decreases j
    {
      NotLess(less, pivot, a[j], pivot);
      if j < l { assert false; }
      j := j - 1;
    }
  }

  lemma PartsJoin<T>(s: seq<T>, less: (T, T) -> bool, pivot: T, l: int, i: int, i': int, j': int, j: int, u: int)
    requires NoneAbove(s, less, pivot, l, i) && NoneAbove(s, less, pivot, i + 1, i' - 1)
    requires NoneBelow(s, less, pivot, j' + 1, j - 1) && NoneBelow(s, less, pivot, j, u)
    requires 0 <= l <= i < i' && j' < j <= u < |s|
    ensures NoneAbove(s, less, pivot, l, i' - 1) && NoneBelow(s, less, pivot, j' + 1, u)
  {
  }

  // Two values on the wrong sides exchanged.
  lemma PartsSwapped<T>(s: seq<T>, less: (T, T) -> bool, pivot: T, l: int, i: int, j: int, u: int)
    requires NoneAbove(s, less, pivot, l, i - 1) && NoneBelow(s, less, pivot, j + 1, u) && 0 <= l <= i <= j <= u < |s|
    requires !less(s[i], pivot) && !less(pivot, s[j])
    ensures var t := s[i := s[j]][j := s[i]]; NoneAbove(t, less, pivot, l, i) && NoneBelow(t, less, pivot, j, u)
  {
  }

  // Splits a range around the median: what comes before place i is not greater
  // than what is there, what comes behind is not less. The pivot and the first
  // value stop the scans within the range, so the order is never found invalid.
  method Partition<T(!new)>(a: array<T>, less: (T, T) -> bool, l: int, u: int) returns (i: int)
    requires StrictWeakOrder(less) && 0 <= l && l + 3 <= u < a.Length
    requires var m := (l + u) / 2; !less(a[m], a[l]) && !less(a[u], a[m])
    modifies a
    ensures l < i < u && Shuffled(old(a[..]), a[..], l, u)
    ensures NoneAbove(a[..], less, a[i], l, i - 1) && NoneBelow(a[..], less, a[i], i + 1, u)
  {
    hide StrictWeakOrder, Shuffled, NoneAbove, NoneBelow;
    ghost var s := a[..];
    var p := (l + u) / 2;
    var pivot := a[p];
    Swap(a, p, u - 1, l, u);
    PartsBegin(a[..], less, pivot, l, u);
    i := PartAround(a, less, pivot, l, u, s);
  }

  // Parts a range around the pivot at u - 1.
  method PartAround<T(!new)>(a: array<T>, less: (T, T) -> bool, pivot: T, l: int, u: int, ghost s: seq<T>)
    returns (i: int)
    requires StrictWeakOrder(less) && 0 <= l < u - 2 && u < a.Length && a[u - 1] == pivot && Shuffled(s, a[..], l, u)
    requires NoneAbove(a[..], less, pivot, l, l) && NoneBelow(a[..], less, pivot, u - 1, u)
    modifies a
    ensures l < i < u && a[i] == pivot && Shuffled(s, a[..], l, u)
    ensures NoneAbove(a[..], less, pivot, l, i - 1) && NoneBelow(a[..], less, pivot, i + 1, u)
  {
    hide StrictWeakOrder, Shuffled, NoneAbove, NoneBelow;
    i := l;
    var j := u - 1;
    while true
      invariant l <= i <= j <= u - 1 && i <= u - 2 && l < j && a[u - 1] == pivot && Shuffled(s, a[..], l, u)
      invariant NoneAbove(a[..], less, pivot, l, i) && NoneBelow(a[..], less, pivot, j, u)
      decreases j - i
    {
      i, j := ScanBoth(a, less, pivot, l, i, j, u);
      if j < i {
        break;
      }
      Exchange(a, less, pivot, l, i, j, u, s);
    }
    ghost var t := a[..];
    PartsEnd(t, less, pivot, l, i, j, u);
    Swap(a, u - 1, i, l, u);
    ShuffledTwice(s, t, a[..], l, u);
  }

  // Exchanges two values on the wrong sides.
  method Exchange<T(!new)>(a: array<T>, less: (T, T) -> bool, pivot: T, l: int, i: int, j: int, u: int, ghost s: seq<T>)
    requires 0 <= l <= i <= j < u - 1 && u < a.Length && !less(a[i], pivot) && !less(pivot, a[j])
    requires NoneAbove(a[..], less, pivot, l, i - 1) && NoneBelow(a[..], less, pivot, j + 1, u)
             && Shuffled(s, a[..], l, u)
    modifies a
    ensures NoneAbove(a[..], less, pivot, l, i) && NoneBelow(a[..], less, pivot, j, u) && Shuffled(s, a[..], l, u)
    ensures a[u - 1] == old(a[u - 1])
  {
    hide Shuffled, NoneAbove, NoneBelow;
    ghost var t := a[..];
    PartsSwapped(t, less, pivot, l, i, j, u);
    Swap(a, i, j, l, u);
    ShuffledTwice(s, t, a[..], l, u);
    assert a[..][u - 1] == t[u - 1];
  }

  // Both scans, up from i and down from j.
  method ScanBoth<T(!new)>(a: array<T>, less: (T, T) -> bool, pivot: T, l: int, i: int, j: int, u: int)
    returns (i': int, j': int)
    requires StrictWeakOrder(less) && 0 <= l <= i <= j < u < a.Length && l < j && i < u - 1 && a[u - 1] == pivot
    requires NoneAbove(a[..], less, pivot, l, i) && NoneBelow(a[..], less, pivot, j, u)
    ensures i < i' <= u - 1 && l <= j' < j && !less(a[i'], pivot) && !less(pivot, a[j'])
    ensures NoneAbove(a[..], less, pivot, l, i' - 1) && NoneBelow(a[..], less, pivot, j' + 1, u)
  {
    hide StrictWeakOrder, NoneAbove, NoneBelow;
    ghost var t := a[..];
    NotAbove(t, less, pivot, l, i);
    i' := ScanUp(a, less, pivot, i + 1, u);
    j' := ScanDown(a, less, pivot, l, j - 1);
    assert a[..] == t;
    PartsJoin(t, less, pivot, l, i, i', j', j, u);
  }

  lemma PartsBegin<T(!new)>(s: seq<T>, less: (T, T) -> bool, pivot: T, l: int, u: int)
    requires StrictWeakOrder(less) && 0 <= l < u - 1 && u < |s| && s[u - 1] == pivot
    requires !less(pivot, s[l]) && !less(s[u], pivot)
    ensures NoneAbove(s, less, pivot, l, l) && NoneBelow(s, less, pivot, u - 1, u)
  {
  }

  lemma NotAbove<T>(s: seq<T>, less: (T, T) -> bool, pivot: T, l: int, i: int)
    requires NoneAbove(s, less, pivot, l, i) && 0 <= l <= i < |s|
    ensures !less(pivot, s[l])
  {
  }

  // The pivot put between the parts.
  lemma PartsEnd<T(!new)>(s: seq<T>, less: (T, T) -> bool, pivot: T, l: int, i: int, j: int, u: int)
    requires NoneAbove(s, less, pivot, l, i - 1) && NoneBelow(s, less, pivot, j + 1, u)
    requires 0 <= l < i <= u - 1 && -1 <= j < i && u < |s| && s[u - 1] == pivot
    ensures var t := s[u - 1 := s[i]][i := pivot];
            NoneAbove(t, less, pivot, l, i - 1) && NoneBelow(t, less, pivot, i + 1, u)
  {
    var t := s[u - 1 := s[i]][i := pivot];
    forall k | i + 1 <= k <= u ensures !less(t[k], pivot) {
      assert t[k] == if k == u - 1 then s[i] else s[k];
    }
  }

  // Sorts places lo to hi. depth is how deep the recursion went.
  method AuxSort<T(!new)>(a: array<T>, less: (T, T) -> bool, lo: int, hi: int) returns (ghost depth: nat)
    requires StrictWeakOrder(less) && 0 <= lo <= hi + 1 <= a.Length
    modifies a
    ensures Shuffled(old(a[..]), a[..], lo, hi) && SortedIn(a[..], less, lo, hi)
    ensures Pow2(depth) <= if hi < lo then 1 else hi - lo + 1
    decreases hi - lo
  {
    hide StrictWeakOrder, Shuffled, SortedIn, Settled, NoneAbove, NoneBelow, Pow2;
    ghost var s := a[..];
    ShuffledSelf(s, lo, hi);
    NothingSettled(s, less, lo, hi);
    depth := 0;
    assert Pow2(0) == 1 by { DepthZero(); }
    var l, u := lo, hi;
    while l < u
      invariant lo <= l <= u + 1 <= hi + 1 && Shuffled(s, a[..], lo, hi)
      invariant Settled(a[..], less, lo, hi, l, u)
      invariant Pow2(depth) <= if hi < lo then 1 else hi - lo + 1
      decreases u - l
    {
      ghost var t := a[..];
      var sorted := OrderThree(a, less, l, u);
      StillSettled(s, t, a[..], less, lo, hi, l, u);
      if sorted {
        AllSettled(a[..], less, lo, hi, l, u);
        return;
      }
      ghost var t1 := a[..];
      var i := Partition(a, less, l, u);
      StillSettled(s, t1, a[..], less, lo, hi, l, u);
      ghost var t2, p, l0, u0 := a[..], i, l, u;
      var j;
      if i - l < u - i {
        j, i, l := l, i - 1, i + 1;
      } else {
        j, i, u := i + 1, u, i - 1;
      }
      ghost var deeper := AuxSort(a, less, j, i);
      DepthBound(deeper, i - j + 1, u0 - l0 + 1);
      depth := if deeper + 1 > depth then deeper + 1 else depth;
      HalfSettled(t2, a[..], less, lo, hi, l0, u0, p, j, i);
      ShuffledInner(s, t2, a[..], lo, hi, j, i);
    }
    AllSettled(a[..], less, lo, hi, l, u);
  }

  // All pairs of places of lo to hi are in order unless both lie in l to u.
  ghost predicate Settled<T>(s: seq<T>, less: (T, T) -> bool, lo: int, hi: int, l: int, u: int) {
    forall p, q :: 0 <= lo <= p < q <= hi < |s| && (p < l || q > u) ==> !less(s[q], s[p])
  }

  lemma ShuffledInner<T>(s: seq<T>, t: seq<T>, r: seq<T>, lo: int, hi: int, l: int, u: int)
    requires Shuffled(s, t, lo, hi) && Shuffled(t, r, l, u) && lo <= l && u <= hi && lo <= hi
    ensures Shuffled(s, r, lo, hi)
  {
    ShuffledWider(t, r, l, u, lo, hi);
    ShuffledTwice(s, t, r, lo, hi);
  }

  // Permuting the places still to be sorted leaves the others settled.
  lemma SettledShuffled<T>(s: seq<T>, t: seq<T>, less: (T, T) -> bool, lo: int, hi: int, l: int, u: int)
    requires Settled(s, less, lo, hi, l, u) && Shuffled(s, t, l, u) && 0 <= lo <= l && u <= hi < |s|
    ensures Settled(t, less, lo, hi, l, u)
  {
    ShuffledOutside(s, t, l, u);
    forall p, q | lo <= p < q <= hi && (p < l || q > u) ensures !less(t[q], t[p]) {
      if l <= q <= u {
        ShuffledAll(s, t, l, u, x => !less(x, s[p]));
      } else if l <= p <= u {
        ShuffledAll(s, t, l, u, x => !less(s[q], x));
      }
    }
  }

  lemma AllSettled<T>(s: seq<T>, less: (T, T) -> bool, lo: int, hi: int, l: int, u: int)
    requires Settled(s, less, lo, hi, l, u) && 0 <= lo <= l && (l >= u || SortedIn(s, less, l, u)) && u <= hi < |s|
    ensures SortedIn(s, less, lo, hi)
  {
  }

  lemma StillSettled<T>(s: seq<T>, t: seq<T>, t': seq<T>, less: (T, T) -> bool, lo: int, hi: int, l: int, u: int)
    requires Settled(t, less, lo, hi, l, u) && Shuffled(s, t, lo, hi) && Shuffled(t, t', l, u)
    requires 0 <= lo <= l && u <= hi < |t| == |s| && lo <= hi
    ensures Settled(t', less, lo, hi, l, u) && Shuffled(s, t', lo, hi)
  {
    hide Settled, Shuffled;
    SettledShuffled(t, t', less, lo, hi, l, u);
    ShuffledInner(s, t, t', lo, hi, l, u);
  }

  // One side of the pivot p, from j to i, has been sorted; the other is left.
  lemma HalfSettled<T(!new)>(s: seq<T>, t: seq<T>, less: (T, T) -> bool, lo: int, hi: int, l: int, u: int, p: int,
                             j: int, i: int)
    requires Settled(s, less, lo, hi, l, u) && 0 <= lo <= l < p < u <= hi < |s|
    requires NoneAbove(s, less, s[p], l, p - 1) && NoneBelow(s, less, s[p], p + 1, u)
    requires StrictWeakOrder(less)
    requires (j == l && i == p - 1) || (j == p + 1 && i == u)
    requires Shuffled(s, t, j, i) && SortedIn(t, less, j, i)
    ensures if j == l then Settled(t, less, lo, hi, p + 1, u) else Settled(t, less, lo, hi, l, p - 1)
  {
    hide StrictWeakOrder, Shuffled;
    ShuffledLength(s, t, j, i);
    ShuffledWider(s, t, j, i, l, u);
    SettledShuffled(s, t, less, lo, hi, l, u);
    ShuffledOutside(s, t, j, i);
    var left := j == l;
    if left { ShuffledAll(s, t, j, i, v => !less(s[p], v)); } else { ShuffledAll(s, t, j, i, v => !less(v, s[p])); }
    forall x, y | lo <= x < y <= hi && (if left then x < p + 1 || y > u else x < l || y > p - 1)
      ensures !less(t[y], t[x])
    {
      if l <= x && y <= u && x < p < y { NotLess(less, t[y], t[p], t[x]); }
    }
  }

  lemma ShuffledLength<T>(s: seq<T>, t: seq<T>, l: int, u: int)
    requires Shuffled(s, t, l, u)
    ensures |s| == |t|
  {
  }

  lemma NothingSettled<T>(s: seq<T>, less: (T, T) -> bool, lo: int, hi: int)
    ensures Settled(s, less, lo, hi, lo, hi)
  {
  }

  lemma DepthZero()
    ensures Pow2(0) == 1
  {
  }

  // The smaller half is less than half of the range.
  lemma DepthBound(deeper: nat, m: int, n: int)
    requires Pow2(deeper) <= (if m < 1 then 1 else m) && 2 * m <= n - 1 && n >= 2
    ensures Pow2(deeper + 1) <= n
  {
  }

  // table.sort: the whole array in order, with the same elements, and a
  // recursion no deeper than the logarithm of its length.
  method Sort<T(!new)>(a: array<T>, less: (T, T) -> bool) returns (ghost depth: nat)
    requires StrictWeakOrder(less)
    modifies a
    ensures multiset(a[..]) == multiset(old(a[..]))
    ensures SortedIn(a[..], less, 0, a.Length - 1)
    ensures Pow2(depth) <= if a.Length == 0 then 1 else a.Length
  {
    ghost var s := a[..];
    depth := AuxSort(a, less, 0, a.Length - 1);
    assert s[0..a.Length] == s && a[..][0..a.Length] == a[..];
  }
}
