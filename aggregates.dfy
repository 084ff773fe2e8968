/**
 * Whole-array reference values for the integer reductions: the sum, the
 * per-slice sums a partitioned run produces, and the minimum and maximum of
 * a non-empty sequence (LINQ `Sum`, `Min` and `Max` over `int`).
 */
module Aggregates {
  import opened Partition

  /** The sum of a sequence (LINQ `Sum`). `long` never overflows here. */
  function Sum(s: seq<int>): (r: int)
    ensures (forall i :: 0 <= i < |s| ==> s[i] >= 0) ==> r >= 0
    decreases |s|
  {
    if s == [] then 0 else Sum(s[..|s| - 1]) + s[|s| - 1]
  }

  /** Adding up from the front, as LINQ does, gives the same sum as taking off the last item. */
  lemma {:induction false} SumFromFront(s: seq<int>)
    requires s != []
    ensures Sum(s) == s[0] + Sum(s[1..])
    decreases |s|
  {
    var init := s[..|s| - 1];
    if init == [] {
      assert s[1..] == [];
    } else {
      SumFromFront(init);
      assert init[1..] == s[1..][..|s[1..]| - 1];
    }
  }

  /** Sums split at any point. */
  lemma {:induction false} SumConcat(x: seq<int>, y: seq<int>)
    ensures Sum(x + y) == Sum(x) + Sum(y)
    decreases |y|
  {
    if y == [] {
      assert x + y == x;
    } else {
      assert (x + y)[..|x + y| - 1] == x + y[..|y| - 1];
      SumConcat(x, y[..|y| - 1]);
    }
  }

  /** The sum of each worker's slice of `a`, in worker order. */
  function SliceSums(a: seq<int>, workers: nat): (r: seq<int>)
    ensures |r| == workers
  {
    seq(workers, w requires 0 <= w < workers =>
      var s := Slice(|a|, workers, w); Sum(a[s.lo..s.hi]))
  }

  /** The first k slice sums add up to the sum of the array up to the end of slice k - 1. */
  lemma {:induction false} SliceSumsPrefix(a: seq<int>, workers: nat, k: nat)
    requires 1 <= k <= workers
    ensures Sum(SliceSums(a, workers)[..k]) == Sum(a[..Slice(|a|, workers, k - 1).hi])
  {
    var ss := SliceSums(a, workers);
    var s := Slice(|a|, workers, k - 1);
    if k == 1 {
      assert ss[..1][..0] == [];
      assert a[..s.hi] == a[s.lo..s.hi];
    } else {
      SliceSumsPrefix(a, workers, k - 1);
      SlicesAdjacent(|a|, workers, k - 2);
      assert ss[..k][..k - 1] == ss[..k - 1];
      assert a[..s.hi] == a[..s.lo] + a[s.lo..s.hi];
      SumConcat(a[..s.lo], a[s.lo..s.hi]);
    }
  }

  /** A slice one item longer adds that item to the sum. */
  lemma SumSliceExtend(a: seq<int>, lo: nat, hi: nat)
    requires lo < hi <= |a|
    ensures Sum(a[lo..hi]) == Sum(a[lo..hi - 1]) + a[hi - 1]
  {
    assert a[lo..hi][..hi - 1 - lo] == a[lo..hi - 1];
  }

  /** For workers >= 1 the slice sums add up to the sum of the whole array, whatever the worker count. */
  lemma SliceSumsTotal(a: seq<int>, workers: nat)
    requires 1 <= workers
    ensures Sum(SliceSums(a, workers)) == Sum(a)
  {
    SliceSumsPrefix(a, workers, workers);
    assert SliceSums(a, workers)[..workers] == SliceSums(a, workers);
    assert a[..|a|] == a;
  }

  /** Element-wise addition of two sequences of the same length. */
  function AddPointwise(x: seq<int>, y: seq<int>): (r: seq<int>)
    requires |x| == |y|
    ensures |r| == |x|
  {
    seq(|x|, i requires 0 <= i < |x| => x[i] + y[i])
  }

  /** Summing commutes with element-wise addition. */
  lemma {:induction false} SumAddPointwise(x: seq<int>, y: seq<int>)
    requires |x| == |y|
    ensures Sum(AddPointwise(x, y)) == Sum(x) + Sum(y)
    decreases |x|
  {
    if x != [] {
      var n := |x| - 1;
      assert AddPointwise(x, y)[..n] == AddPointwise(x[..n], y[..n]);
      SumAddPointwise(x[..n], y[..n]);
    }
  }

  /** The smallest element of a non-empty sequence. */
  function SeqMin(s: seq<int>): (m: int)
    requires |s| > 0
    ensures m in s
    ensures forall i :: 0 <= i < |s| ==> m <= s[i]
    decreases |s|
  {
    if |s| == 1 then s[0]
    else
      var init, last := s[..|s| - 1], s[|s| - 1];
      var rest := SeqMin(init);
      assert forall i :: 0 <= i < |s| - 1 ==> s[i] == init[i];
      if rest > last then last else rest
  }

  /** The largest element of a non-empty sequence. */
  function SeqMax(s: seq<int>): (m: int)
    requires |s| > 0
    ensures m in s
    ensures forall i :: 0 <= i < |s| ==> s[i] <= m
    decreases |s|
  {
    if |s| == 1 then s[0]
    else
      var init, last := s[..|s| - 1], s[|s| - 1];
      var rest := SeqMax(init);
      assert forall i :: 0 <= i < |s| - 1 ==> s[i] == init[i];
      if rest < last then last else rest
  }
}
