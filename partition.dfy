/**
 * Static partitioning of an array of `len` items among `workers` workers.
 *
 * Worker `index` gets the half-open slice starting at `index * (len / workers)`;
 * every worker but the last gets exactly `len / workers` items and the last one
 * runs to the end of the array, absorbing the remainder. The same arithmetic
 * is used by the task-based processor and by the thread-based processor.
 */
module Partition {

  /** A half-open index range [lo, hi). */
  datatype Range = Range(lo: nat, hi: nat) {
    predicate Contains(j: int) {
      lo <= j < hi
    }
  }

  /** A prefix splits at any earlier point into a shorter prefix and a slice. */
  lemma PrefixSplit<T>(a: seq<T>, i: nat, j: nat)
    requires i <= j <= |a|
    ensures a[..j] == a[..i] + a[i..j]
  {
  }

  /** a <= b implies a * c <= b * c, for natural numbers. */
  lemma MulMonotonic(a: nat, b: nat, c: nat)
    requires a <= b
    ensures a * c <= b * c
  {
    assert b * c == a * c + (b - a) * c;
  }

  /** The chunk size truncated by integer division never over-runs the array. */
  lemma ChunksFit(len: nat, workers: nat, k: nat)
    requires 1 <= workers && k <= workers
    ensures k * (len / workers) <= len
  {
    MulMonotonic(k, workers, len / workers);
    assert workers * (len / workers) + len % workers == len;
  }

  /**
   * The slice handed to worker `index`. The range handed to `AsMemory` /
   * `AsSpan` is always within the array, so slicing never throws.
   */
  function Slice(len: nat, workers: nat, index: nat): (r: Range)
    requires index < workers
    ensures r.lo <= r.hi <= len
    ensures r.lo == index * (len / workers)
    ensures index < workers - 1 ==> r.hi - r.lo == len / workers
    ensures index == workers - 1 ==> r.hi == len
  {
    ChunksFit(len, workers, index + 1);
    var count := len / workers;
    if index == workers - 1 then Range(index * count, len)
    else Range(index * count, index * count + count)
  }

  /** Consecutive slices touch: each one starts where the previous one ends. */
  lemma SlicesAdjacent(len: nat, workers: nat, index: nat)
    requires index + 1 < workers
    ensures Slice(len, workers, index).hi == Slice(len, workers, index + 1).lo
  {
    var count := len / workers;
    assert (index + 1) * count == index * count + count;
  }

  /** Slices of different workers are ordered and therefore pairwise disjoint. */
  lemma SlicesDisjoint(len: nat, workers: nat, i: nat, k: nat)
    requires i < k < workers
    ensures Slice(len, workers, i).hi <= Slice(len, workers, k).lo
    ensures forall j :: !(Slice(len, workers, i).Contains(j) && Slice(len, workers, k).Contains(j))
  {
    SlicesAdjacent(len, workers, i);
    MulMonotonic(i + 1, k, len / workers);
  }

  /** The worker whose slice holds index `j`, found by walking the slices from `from`. */
  function OwnerFrom(len: nat, workers: nat, j: nat, from: nat): (w: nat)
    requires from < workers && Slice(len, workers, from).lo <= j < len
    ensures from <= w < workers
    ensures Slice(len, workers, w).Contains(j)
    decreases workers - from
  {
    if from == workers - 1 || j < Slice(len, workers, from).hi then from
    else
      SlicesAdjacent(len, workers, from);
      OwnerFrom(len, workers, j, from + 1)
  }

  /** The worker whose slice holds index `j`. */
  function Owner(len: nat, workers: nat, j: nat): (w: nat)
    requires 1 <= workers && j < len
    ensures w < workers && Slice(len, workers, w).Contains(j)
  {
    OwnerFrom(len, workers, j, 0)
  }

  /** Where the slices of the first `k` workers end: 0 for none. */
  function SlicesEnd(len: nat, workers: nat, k: nat): (e: nat)
    requires k <= workers
    ensures e <= len
    ensures 0 < k < workers ==> e == Slice(len, workers, k).lo
    ensures 0 < k == workers ==> e == len
  {
    if k == 0 then 0
    else if k < workers then
      SlicesAdjacent(len, workers, k - 1);
      Slice(len, workers, k - 1).hi
    else Slice(len, workers, k - 1).hi
  }

  /** No other worker's slice holds `j`: the owner is unique. */
  lemma OwnerUnique(len: nat, workers: nat, j: nat, w: nat)
    requires w < workers && Slice(len, workers, w).Contains(j)
    ensures w == Owner(len, workers, j)
  {
    var o := Owner(len, workers, j);
    if w < o {
      SlicesDisjoint(len, workers, w, o);
    } else if o < w {
      SlicesDisjoint(len, workers, o, w);
    }
  }

  /** Index `j` lies in the slice of some worker. */
  predicate Covered(len: nat, workers: nat, j: int) {
    exists w :: 0 <= w < workers && Slice(len, workers, w).Contains(j)
  }

  /**
   * Exact coverage: for workers >= 1 the slices start at 0, end at len, and an
   * index lies in some slice exactly when it is an index of the array.
   */
  lemma SlicesCover(len: nat, workers: nat)
    requires 1 <= workers
    ensures Slice(len, workers, 0).lo == 0
    ensures Slice(len, workers, workers - 1).hi == len
    ensures forall j :: Covered(len, workers, j) <==> 0 <= j < len
  {
    forall j | 0 <= j < len
      ensures Covered(len, workers, j)
    {
      var w := Owner(len, workers, j);
    }
  }

  /**
   * Sizes: every slice but the last has len / workers items; the last holds
   * len - (workers - 1) * (len / workers) items, which is the chunk size plus
   * the remainder len % workers, so never smaller than the others.
   */
  lemma SliceSizes(len: nat, workers: nat, index: nat)
    requires index < workers
    ensures index < workers - 1 ==> Slice(len, workers, index).hi - Slice(len, workers, index).lo == len / workers
    ensures index == workers - 1 ==>
      var r := Slice(len, workers, index);
      r.hi - r.lo == len - (workers - 1) * (len / workers) == len / workers + len % workers
      && r.hi - r.lo >= len / workers
  {
    var count := len / workers;
    assert workers * count + len % workers == len;
    assert (workers - 1) * count + count == workers * count;
  }

  /**
   * More workers than items: len / workers is 0, so the first workers - 1
   * slices are empty and the last slice is the whole array.
   */
  lemma OversubscribedSlices(len: nat, workers: nat)
    requires len < workers
    ensures forall w :: 0 <= w < workers - 1 ==> Slice(len, workers, w) == Range(0, 0)
    ensures Slice(len, workers, workers - 1) == Range(0, len)
  {
    assert len / workers == 0;
  }

  /** Every slice holds at least one item exactly when there are no more workers than items. */
  lemma AllSlicesNonEmpty(len: nat, workers: nat)
    requires 1 <= workers
    ensures (forall w :: 0 <= w < workers ==> Slice(len, workers, w).lo < Slice(len, workers, w).hi)
            <==> workers <= len
  {
    if workers <= len {
      assert len / workers >= 1 by {
        assert workers * (len / workers) + len % workers == len;
        assert len % workers < workers;
      }
      forall w | 0 <= w < workers
        ensures Slice(len, workers, w).lo < Slice(len, workers, w).hi
      {
        SliceSizes(len, workers, w);
      }
    } else {
      OversubscribedSlices(len, workers);
      assert Slice(len, workers, 0).lo == Slice(len, workers, 0).hi;
    }
  }
}
