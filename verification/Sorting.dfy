/** Go's sort.Slice: some sorted permutation. Nothing is promised about the order of ties. */
module Sorting {
  ghost predicate StrictWeakOrder<T(!new)>(less: (T, T) -> bool)
  {
    && (forall a, b :: less(a, b) ==> !less(b, a))
    && (forall a, b, c :: !less(a, b) && !less(b, c) ==> !less(a, c))
  }

  ghost predicate SortedBy<T>(less: (T, T) -> bool, xs: seq<T>)
  {
    forall i, j | 0 <= i < j < |xs| :: !less(xs[j], xs[i])
  }

  method SortSlice<T(!new)>(xs: seq<T>, less: (T, T) -> bool) returns (ys: seq<T>)
    requires StrictWeakOrder(less)
    ensures multiset(ys) == multiset(xs)
    ensures SortedBy(less, ys)
  {
    ys := [];
    for n := 0 to |xs|
      invariant multiset(ys) == multiset(xs[..n])
      invariant SortedBy(less, ys)
    {
      assert xs[..n + 1] == xs[..n] + [xs[n]];
      ys := Insert(ys, xs[n], less);
    }
    assert xs[..|xs|] == xs;
  }

  method Insert<T(!new)>(ys: seq<T>, x: T, less: (T, T) -> bool) returns (zs: seq<T>)
    requires StrictWeakOrder(less) && SortedBy(less, ys)
    ensures multiset(zs) == multiset(ys) + multiset{x}
    ensures SortedBy(less, zs)
  {
    var i := 0;
    while i < |ys| && !less(x, ys[i])
      invariant 0 <= i <= |ys|
      invariant forall j | 0 <= j < i :: !less(x, ys[j])
    {
      i := i + 1;
    }
    assert ys == ys[..i] + ys[i..];
    zs := ys[..i] + [x] + ys[i..];
    InsertedIsSorted(ys, x, less, i);
  }

  lemma InsertedIsSorted<T(!new)>(ys: seq<T>, x: T, less: (T, T) -> bool, i: nat)
    requires StrictWeakOrder(less) && SortedBy(less, ys) && i <= |ys|
    requires forall j | 0 <= j < i :: !less(x, ys[j])
    requires i < |ys| ==> less(x, ys[i])
    ensures SortedBy(less, ys[..i] + [x] + ys[i..])
  {
  }

  lemma {:induction false} SortedExists<T(!new)>(xs: seq<T>, less: (T, T) -> bool) returns (ys: seq<T>)
    requires StrictWeakOrder(less)
    ensures multiset(ys) == multiset(xs) && SortedBy(less, ys)
  {
    if xs == [] {
      ys := [];
    } else {
      var n := |xs| - 1;
      var front := SortedExists(xs[..n], less);
      var i := 0;
      while i < |front| && !less(xs[n], front[i])
        invariant 0 <= i <= |front|
        invariant forall j | 0 <= j < i :: !less(xs[n], front[j])
      {
        i := i + 1;
      }
      ys := front[..i] + [xs[n]] + front[i..];
      InsertedIsSorted(front, xs[n], less, i);
      assert front == front[..i] + front[i..] && xs == xs[..n] + [xs[n]];
    }
  }
}
