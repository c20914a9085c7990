/** Sorting by a numeric key: what the program asks of sort.Slice and
    sort.SliceStable. */
module Sorting {

  ghost predicate SortedBy<T>(xs: seq<T>, key: T -> real) {
    forall i, j :: 0 <= i < j < |xs| ==> key(xs[i]) <= key(xs[j])
  }

  /** Insertion sort: an ordered permutation of the input. */
  method Sort<T>(xs: seq<T>, key: T -> real) returns (ys: seq<T>)
    ensures SortedBy(ys, key)
    ensures multiset(ys) == multiset(xs)
  {
    ys := [];
    var n := 0;
    while n < |xs|
      invariant 0 <= n <= |xs|
      invariant SortedBy(ys, key)
      invariant multiset(ys) == multiset(xs[..n])
    {
      assert xs[..n + 1] == xs[..n] + [xs[n]];
      ys := Insert(ys, xs[n], key);
      n := n + 1;
    }
    assert xs[..n] == xs;
  }

  method Insert<T>(ys: seq<T>, x: T, key: T -> real) returns (zs: seq<T>)
    requires SortedBy(ys, key)
    ensures SortedBy(zs, key)
    ensures multiset(zs) == multiset(ys) + multiset{x}
  {
    hide SortedBy;
    var k := |ys|;
    while k > 0 && key(x) < key(ys[k - 1])
      invariant 0 <= k <= |ys|
      invariant forall i :: k <= i < |ys| ==> key(x) < key(ys[i])
    {
      k := k - 1;
    }
    assert ys == ys[..k] + ys[k..];
    zs := ys[..k] + [x] + ys[k..];
    InsertKeepsOrder(ys, x, key, k);
  }

  lemma InsertKeepsOrder<T>(ys: seq<T>, x: T, key: T -> real, k: nat)
    requires SortedBy(ys, key) && k <= |ys|
    requires k > 0 ==> key(ys[k - 1]) <= key(x)
    requires forall i :: k <= i < |ys| ==> key(x) < key(ys[i])
    ensures SortedBy(ys[..k] + [x] + ys[k..], key)
  {
    var zs := ys[..k] + [x] + ys[k..];
    forall i, j | 0 <= i < j < |zs| ensures key(zs[i]) <= key(zs[j]) {
      if i < k {
        assert zs[i] == ys[i];
        assert k > 0 && key(ys[i]) <= key(ys[k - 1]);
      }
      if j > k {
        assert zs[j] == ys[j - 1];
      }
      if i > k {
        assert zs[i] == ys[i - 1];
      }
    }
  }
}
