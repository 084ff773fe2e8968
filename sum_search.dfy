/**
 * `SumSearch`: the thread-based processor over `int` items. Each thread
 * adds the items of its slice into its own slot of `_results` (`long[]`,
 * zeroed at construction); `Process` then sums the slots into `Result`.
 * `_results` is never reset, so every `Process` call adds the slice sums
 * again on top of what the slots already hold.
 *
 * `long` is `int` here: a sum of `int` items over an array that fits in
 * memory cannot overflow a `long`.
 */
module SumSearchThreads {
  import opened Partition
  import opened Aggregates
  import opened ThreadsProcessor

  class SumSearch {
    /** The length of `_threads`, fixed by the constructor. */
    const threads: nat
    /** `_array`: the items, shared with the caller and never written. */
    const items: array<int>
    /** `_results`: one running sum per thread. */
    const results: array<int>
    var Result: int
    /** The `ProcessValue` calls made so far, in order. */
    ghost var calls: seq<Call>

    ghost predicate Valid() {
      results.Length == threads && results != items
    }

    /** A new instance: one zeroed result slot per thread, no result yet. */
    constructor(threadCount: nat, data: array<int>)
      ensures Valid()
      ensures threads == threadCount && items == data
      ensures fresh(results) && results[..] == seq(threadCount, _ => 0)
      ensures Result == 0 && calls == []
    {
      threads := threadCount;
      items := data;
      results := new int[threadCount](_ => 0);
      Result := 0;
      calls := [];
    }

    /** `ProcessValue`: add item `itemIndex` of the span to this thread's slot, and to no other. */
    method ProcessValue(threadIndex: nat, itemIndex: nat, span: Range)
      requires Valid() && threadIndex < threads
      requires span.lo + itemIndex < span.hi <= items.Length
      modifies this, results
      ensures results[..] == old(results[..])[threadIndex := old(results[threadIndex]) + items[span.lo + itemIndex]]
      ensures Result == old(Result)
      ensures calls == old(calls) + [Call(threadIndex, itemIndex)]
    {
      results[threadIndex] := results[threadIndex] + items[span.lo + itemIndex];
      calls := calls + [Call(threadIndex, itemIndex)];
    }

    /**
     * `ThreadProc(index)`: compute the thread's slice and call `ProcessValue`
     * for every position of it, in order; the thread's slot grows by the sum
     * of its slice.
     */
    method ThreadProc(index: nat)
      requires Valid() && index < threads
      modifies this, results
      ensures var s := Slice(items.Length, threads, index);
        results[..] == old(results[..])[index := old(results[index]) + Sum(items[s.lo..s.hi])]
      ensures Result == old(Result)
      ensures calls == old(calls) + ThreadCalls(items.Length, threads, index)
    {
      var s := Slice(items.Length, threads, index);
      for i := 0 to s.hi - s.lo
        invariant results[..] == old(results[..])[index := old(results[index]) + Sum(items[s.lo..s.lo + i])]
        invariant Result == old(Result)
        invariant calls == old(calls) + seq(i, (k: nat) => Call(index, k))
      {
        ghost var log := calls;
        SumSliceExtend(items[..], s.lo, s.lo + i + 1);
        assert items[..][s.lo..s.lo + i + 1] == items[s.lo..s.lo + i + 1];
        assert items[..][s.lo..s.lo + i] == items[s.lo..s.lo + i];
        ProcessValue(index, i, s);
        ThreadCallsStep(index, i, old(calls), log);
      }
    }

    /** `MultiThreadingProcessor.Process`: run thread 0, 1, ..., threads - 1; every slot grows by its slice sum. */
    method RunThreads()
      requires Valid()
      modifies this, results
      ensures results[..] == AddPointwise(old(results[..]), SliceSums(items[..], threads))
      ensures Result == old(Result)
      ensures calls == old(calls) + Schedule(items.Length, threads, threads)
    {
      ghost var before, a, log0 := results[..], items[..], calls;
      for t := 0 to threads
        invariant Ran(before, a, log0, t)
        invariant Result == old(Result)
      {
        RunThread(t, before, a, log0);
      }
      AddedAll(before, a, results[..]);
    }

    /** The state once threads 0 .. t - 1 have run, starting from slots `before` and log `log0`, over items `a`. */
    ghost predicate Ran(before: seq<int>, a: seq<int>, log0: seq<Call>, t: nat)
      reads this, results, items
    {
      Valid() && |before| == threads && t <= threads && items[..] == a
      && results[..] == Added(before, a, t)
      && calls == log0 + Schedule(|a|, threads, t)
    }

    /** One thread of the loop: thread `t` starts and runs to completion. */
    method RunThread(t: nat, ghost before: seq<int>, ghost a: seq<int>, ghost log0: seq<Call>)
      requires t < threads && Ran(before, a, log0, t)
      modifies this, results
      ensures Ran(before, a, log0, t + 1)
      ensures Result == old(Result)
    {
      ghost var mid, log := results[..], calls;
      ThreadProc(t);
      ScheduleStep(|a|, threads, t, log0, log, calls);
      AddedStep(before, a, t, mid, results[..]);
    }

    /** `SumSearch.Process`: run the threads, then `Result` is the sum of the slots. */
    method Process()
      requires Valid()
      modifies this, results
      ensures results[..] == AddPointwise(old(results[..]), SliceSums(items[..], threads))
      ensures Result == Sum(results[..])
      ensures Result == Sum(old(results[..])) + (if threads == 0 then 0 else Sum(items[..]))
      ensures calls == old(calls) + Schedule(items.Length, threads, threads)
    {
      RunThreads();
      Result := Sum(results[..]);
      SumAddPointwise(old(results[..]), SliceSums(items[..], threads));
      if threads >= 1 {
        SliceSumsTotal(items[..], threads);
      }
    }
  }

  /** Slots `0 .. t - 1` of `base` after their threads have added the sums of their slices of `a`. */
  function Added(base: seq<int>, a: seq<int>, t: nat): (r: seq<int>)
    requires t <= |base|
    ensures |r| == |base|
  {
    seq(|base|, u requires 0 <= u < |base| =>
      if u < t then var s := Slice(|a|, |base|, u); base[u] + Sum(a[s.lo..s.hi]) else base[u])
  }

  /** With every slot added, `Added` is the element-wise sum with the slice sums. */
  lemma AddedAll(base: seq<int>, a: seq<int>, r: seq<int>)
    requires r == Added(base, a, |base|)
    ensures r == AddPointwise(base, SliceSums(a, |base|))
  {
  }

  /** Running thread `t` moves `Added` one slot on. */
  lemma AddedStep(base: seq<int>, a: seq<int>, t: nat, mid: seq<int>, cur: seq<int>)
    requires t < |base|
    requires mid == Added(base, a, t)
    requires var s := Slice(|a|, |base|, t); cur == mid[t := mid[t] + Sum(a[s.lo..s.hi])]
    ensures cur == Added(base, a, t + 1)
  {
  }

  /** The sum of `threads` zeros is zero. */
  lemma {:induction false} SumZeros(n: nat)
    ensures Sum(seq(n, _ => 0)) == 0
  {
    if n > 0 {
      assert seq(n, _ => 0)[..n - 1] == seq(n - 1, _ => 0);
      SumZeros(n - 1);
    }
  }

  /**
   * A fresh instance processed twice: the first `Result` is the sum of the
   * array whatever the thread count (0 with no threads), and the second is
   * twice that, because the slots keep the first run's sums.
   */
  method ProcessTwice(threadCount: nat, data: array<int>) returns (first: int, second: int)
    ensures first == (if threadCount == 0 then 0 else Sum(data[..]))
    ensures second == 2 * first
  {
    var p := new SumSearch(threadCount, data);
    SumZeros(threadCount);
    p.Process();
    first := p.Result;
    p.Process();
    second := p.Result;
  }
}
