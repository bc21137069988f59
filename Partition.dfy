/**
 The partitioner `split(a, n)`: `n` contiguous slices of `a` whose sizes
 differ by at most one, the first `len(a) % n` of them one longer.
 */
module Partition {

  function Min(x: int, y: int): int
  {
    if x <= y then x else y
  }

  /** `i * k`, spelled out as repeated addition. */
  function Mul(i: nat, k: nat): nat
  {
    if i == 0 then 0 else Mul(i - 1, k) + k
  }

  lemma {:induction false} MulIsProduct(i: nat, k: nat)
    ensures Mul(i, k) == i * k
  {
    if i > 0 {
      MulIsProduct(i - 1, k);
      assert (i - 1) * k + k == i * k;
    }
  }

  /** Where slice `i` starts: `i*k + min(i, m)` with `k, m = divmod(len, n)`. */
  function Bound(len: nat, n: nat, i: nat): nat
    requires n > 0
  {
    Mul(i, len / n) + Min(i, len % n)
  }

  lemma BoundStep(len: nat, n: nat, i: nat)
    requires n > 0
    ensures Bound(len, n, i + 1) == Bound(len, n, i) + len / n + (if i < len % n then 1 else 0)
  {
  }

  lemma {:induction false} BoundMonotone(len: nat, n: nat, i: nat, j: nat)
    requires n > 0 && i <= j
    ensures Bound(len, n, i) <= Bound(len, n, j)
    decreases j - i
  {
    if i < j {
      BoundStep(len, n, i);
      BoundMonotone(len, n, i + 1, j);
    }
  }

  lemma BoundEnd(len: nat, n: nat)
    requires n > 0
    ensures Bound(len, n, n) == len
  {
    MulIsProduct(n, len / n);
    assert n * (len / n) + len % n == len;
  }

  /** Slice `i` of `n` lies inside the list. */
  lemma BoundsFit(len: nat, n: nat, i: nat)
    requires i < n
    ensures Bound(len, n, i) <= Bound(len, n, i + 1) <= len
  {
    BoundMonotone(len, n, i, i + 1);
    BoundMonotone(len, n, i + 1, n);
    BoundEnd(len, n);
  }

  /** `list(split(a, n))`; Python raises ZeroDivisionError when `n == 0`. */
  function Split<T>(a: seq<T>, n: nat): (parts: seq<seq<T>>)
    requires n > 0
    ensures |parts| == n
  {
    seq(n, i requires 0 <= i < n =>
      BoundsFit(|a|, n, i);
      a[Bound(|a|, n, i)..Bound(|a|, n, i + 1)])
  }

  /** The slices joined back in order. */
  function Flatten<T>(parts: seq<seq<T>>): seq<T>
    decreases |parts|
  {
    if parts == [] then [] else Flatten(parts[..|parts| - 1]) + parts[|parts| - 1]
  }

  lemma {:induction false} FlattenAppend<T>(xs: seq<seq<T>>, ys: seq<seq<T>>)
    ensures Flatten(xs + ys) == Flatten(xs) + Flatten(ys)
    decreases |ys|
  {
    if ys != [] {
      var last := |ys| - 1;
      assert (xs + ys)[..|xs + ys| - 1] == xs + ys[..last];
      FlattenAppend(xs, ys[..last]);
    } else {
      assert xs + ys == xs;
    }
  }

  /** With `k, m = divmod(len(a), n)`, slice `i` holds `k + 1` items when
      `i < m` and `k` otherwise. */
  lemma SplitSize<T>(a: seq<T>, n: nat, i: nat)
    requires 0 < n && i < n
    ensures |Split(a, n)[i]| == |a| / n + (if i < |a| % n then 1 else 0)
  {
    BoundsFit(|a|, n, i);
    BoundStep(|a|, n, i);
  }

  /** Any two slices differ in size by at most one. */
  lemma SplitBalanced<T>(a: seq<T>, n: nat, i: nat, j: nat)
    requires 0 < n && i < n && j < n
    ensures -1 <= |Split(a, n)[i]| - |Split(a, n)[j]| <= 1
  {
    SplitSize(a, n, i);
    SplitSize(a, n, j);
  }

  /** Item `t` of slice `i` is item `Bound(i) + t` of the list. */
  lemma SplitAt<T>(a: seq<T>, n: nat, i: nat, t: nat)
    requires 0 < n && i < n && t < |Split(a, n)[i]|
    ensures Bound(|a|, n, i) + t < |a| && Split(a, n)[i][t] == a[Bound(|a|, n, i) + t]
  {
    BoundsFit(|a|, n, i);
  }

  lemma {:induction false} SplitPrefix<T>(a: seq<T>, n: nat, j: nat)
    requires 0 < n && j <= n
    ensures Bound(|a|, n, j) <= |a|
    ensures Flatten(Split(a, n)[..j]) == a[..Bound(|a|, n, j)]
  {
    BoundMonotone(|a|, n, j, n);
    BoundEnd(|a|, n);
    if j > 0 {
      var parts := Split(a, n);
      SplitPrefix(a, n, j - 1);
      BoundsFit(|a|, n, j - 1);
      assert parts[..j][..j - 1] == parts[..j - 1];
      var lo, hi := Bound(|a|, n, j - 1), Bound(|a|, n, j);
      assert a[..lo] + a[lo..hi] == a[..hi];
    }
  }

  /** The slices cover the list exactly once, in order: joined, they give
      the list back, nothing dropped, duplicated or moved. */
  lemma SplitCovers<T>(a: seq<T>, n: nat)
    requires n > 0
    ensures Flatten(Split(a, n)) == a
  {
    SplitPrefix(a, n, n);
    BoundEnd(|a|, n);
    assert Split(a, n)[..n] == Split(a, n);
  }

  /** Seventeen items into three slices: sizes 6, 6 and 5. */
  lemma SplitSeventeenIntoThree(a: seq<int>)
    requires |a| == 17
    ensures |Split(a, 3)[0]| == 6 && |Split(a, 3)[1]| == 6 && |Split(a, 3)[2]| == 5
  {
  }
}
