/** Circular permutations: a sequence rotated to start at a given index,
    and the seat numbers 0..n-1 rotated to start at a given seat. */
module Util {

  /** The index Python uses for the slices `arr[i:]` and `arr[:i]`: a
      negative index counts from the end, and the result is clamped to
      0..len. */
  function SliceIndex(i: int, len: nat): (k: nat)
    ensures k <= len
    ensures 0 <= i <= len ==> k == i
  {
    if i < 0 then (if len + i < 0 then 0 else len + i)
    else if i > len then len
    else i
  }

  /** `permute(arr, i)`: `arr[i:]` followed by `arr[:i]`. */
  function Permute<T>(arr: seq<T>, i: int): (r: seq<T>)
    ensures |r| == |arr|
    ensures multiset(r) == multiset(arr)
  {
    var k := SliceIndex(i, |arr|);
    assert arr == arr[..k] + arr[k..];
    arr[k..] + arr[..k]
  }

  lemma ModBelow(a: int, n: int)
    requires 0 <= a < n
    ensures a % n == a
  {
  }

  lemma ModWrap(a: int, n: int)
    requires 0 < n <= a < 2 * n
    ensures a % n == a - n
  {
  }

  /** The `k`-th element of the rotation is the element `k` places after
      the start, wrapping round. */
  lemma PermuteAt<T>(arr: seq<T>, i: int, k: nat)
    requires k < |arr|
    ensures Permute(arr, i)[k] == arr[(k + SliceIndex(i, |arr|)) % |arr|]
  {
    var n, c := |arr|, SliceIndex(i, |arr|);
    var r := arr[c..] + arr[..c];
    assert Permute(arr, i) == r;
    if k < n - c {
      assert r[k] == arr[c..][k] == arr[k + c];
      ModBelow(k + c, n);
    } else {
      assert r[k] == arr[..c][k - (n - c)] == arr[k + c - n];
      ModWrap(k + c, n);
    }
  }

  /** Rotating by zero changes nothing. */
  lemma PermuteByZero<T>(arr: seq<T>)
    ensures Permute(arr, 0) == arr
  {
  }

  /** `range(lo, hi)`: the integers from `lo` up to but not including `hi`;
      empty when `hi <= lo`. */
  function Range(lo: int, hi: int): (r: seq<int>)
    ensures |r| == if lo < hi then hi - lo else 0
    ensures forall k :: 0 <= k < |r| ==> r[k] == lo + k
    decreases hi - lo
  {
    if lo < hi then [lo] + Range(lo + 1, hi) else []
  }

  /** `permute_range(start, n)`: `start .. n-1` followed by `0 .. start-1`. */
  function PermuteRange(start: int, n: int): seq<int>
  {
    Range(start, n) + Range(0, start)
  }

  /** For a start seat in 0..n, the rotation lists every seat of 0..n-1
      exactly once, counting on from `start` and wrapping round; it begins at
      `start` unless `start` is `n`. */
  lemma PermuteRangeIsRotation(start: int, n: int)
    requires 0 <= start <= n
    ensures |PermuteRange(start, n)| == n
    ensures forall k :: 0 <= k < n ==> PermuteRange(start, n)[k] == (start + k) % n
    ensures forall p :: 0 <= p < n ==> multiset(PermuteRange(start, n))[p] == 1
    ensures forall x :: x in PermuteRange(start, n) <==> 0 <= x < n
    ensures start < n ==> PermuteRange(start, n)[0] == start
  {
    RotationAt(start, n);
    RotationCounts(start, n);
  }

  lemma RotationAt(start: int, n: int)
    requires 0 <= start <= n
    ensures forall k :: 0 <= k < n ==> PermuteRange(start, n)[k] == (start + k) % n
  {
    forall k | 0 <= k < n ensures PermuteRange(start, n)[k] == (start + k) % n {
      RotationAtOne(start, n, k);
    }
  }

  lemma RotationAtOne(start: int, n: int, k: nat)
    requires 0 <= start <= n && k < n
    ensures PermuteRange(start, n)[k] == (start + k) % n
  {
    var high, low := Range(start, n), Range(0, start);
    assert PermuteRange(start, n) == high + low;
    if k < n - start {
      assert (high + low)[k] == high[k] == start + k;
      ModBelow(start + k, n);
    } else {
      assert (high + low)[k] == low[k - (n - start)] == start + k - n;
      ModWrap(start + k, n);
    }
  }

  lemma RotationCounts(start: int, n: int)
    requires 0 <= start <= n
    ensures forall x :: multiset(PermuteRange(start, n))[x] == if 0 <= x < n then 1 else 0
    ensures forall x :: x in PermuteRange(start, n) <==> 0 <= x < n
  {
    var r := PermuteRange(start, n);
    RangeCounts(start, n);
    RangeCounts(0, start);
    assert multiset(r) == multiset(Range(start, n)) + multiset(Range(0, start));
    assert forall x :: x in r <==> x in multiset(r);
  }

  /** Each integer of `lo .. hi-1` occurs once in `Range(lo, hi)`, and no
      other integer occurs. */
  lemma {:induction false} RangeCounts(lo: int, hi: int)
    ensures forall x :: multiset(Range(lo, hi))[x] == if lo <= x < hi then 1 else 0
    decreases hi - lo
  {
    if lo < hi {
      RangeCounts(lo + 1, hi);
      assert Range(lo, hi) == [lo] + Range(lo + 1, hi);
    }
  }

  /** A range cut at `mid` is the two ranges on either side. */
  lemma RangeSplit(lo: int, mid: int, hi: int)
    requires lo <= mid <= hi
    ensures Range(lo, hi)[..mid - lo] == Range(lo, mid)
    ensures Range(lo, hi)[mid - lo..] == Range(mid, hi)
  {
  }

  /** `permute_range` is `permute` applied to the seats 0..n-1. */
  lemma PermuteRangeIsPermute(start: int, n: int)
    requires 0 <= start <= n
    ensures PermuteRange(start, n) == Permute(Range(0, n), start)
  {
    RangeSplit(0, start, n);
    assert SliceIndex(start, |Range(0, n)|) == start;
  }

  /** The cases of `test_permute_range`. */
  lemma PermuteRangeExamples()
    ensures PermuteRange(0, 4) == [0, 1, 2, 3]
    ensures PermuteRange(1, 4) == [1, 2, 3, 0]
    ensures PermuteRange(4, 4) == [0, 1, 2, 3]
  {
  }
}
