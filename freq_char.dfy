/**
 * `FreqChar`: the thread-based processor over `char` items. Each thread
 * counts the characters of its slice into its own dictionary, allocated on
 * its first character and null until then; `Process` merges the per-thread
 * dictionaries into a new `Result`. A thread whose slice is empty leaves its
 * slot null, and the merge then dereferences it and throws. `_results` is
 * never reset, so a second `Process` counts every character again.
 */
module FreqCharThreads {
  import opened Results
  import opened Partition
  import opened CharCounts
  import opened ThreadsProcessor

  /** Slots `0 .. t - 1` after their threads have counted their slices of `a` into them. */
  function CountedUpTo(before: seq<Option<CharMap>>, a: seq<char>, t: nat): (r: seq<Option<CharMap>>)
    requires t <= |before|
    ensures |r| == |before|
  {
    seq(|before|, u requires 0 <= u < |before| =>
      if u < t then var s := Slice(|a|, |before|, u); CountSpan(before[u], a[s.lo..s.hi]) else before[u])
  }

  /** Every slot after every thread has counted its slice of `a` into it. */
  function Counted(before: seq<Option<CharMap>>, a: seq<char>): (r: seq<Option<CharMap>>)
    ensures |r| == |before|
  {
    CountedUpTo(before, a, |before|)
  }

  /** Running thread `t` moves `CountedUpTo` one slot on. */
  lemma CountedStep(before: seq<Option<CharMap>>, a: seq<char>, t: nat,
                    mid: seq<Option<CharMap>>, cur: seq<Option<CharMap>>)
    requires t < |before|
    requires mid == CountedUpTo(before, a, t)
    requires var s := Slice(|a|, |before|, t); cur == mid[t := CountSpan(mid[t], a[s.lo..s.hi])]
    ensures cur == CountedUpTo(before, a, t + 1)
  {
  }

  /** Counting the last character of `longer` into slot `index` extends what that slot has counted to all of `longer`. */
  lemma CountedSlotStep(before: seq<Option<CharMap>>, index: nat, d: Option<CharMap>, longer: seq<char>,
                        mid: seq<Option<CharMap>>, cur: seq<Option<CharMap>>)
    requires index < |before| && |longer| >= 1
    requires mid == before[index := CountSpan(d, longer[..|longer| - 1])]
    requires cur == mid[index := CountStep(mid[index], longer[|longer| - 1])]
    ensures cur == before[index := CountSpan(d, longer)]
  {
  }

  class FreqChar {
    /** The length of `_threads`, fixed by the constructor. */
    const threads: nat
    /** `_array`: the items, shared with the caller and never written. */
    const items: array<char>
    /** `_results`: one dictionary per thread, null until that thread sees a character. */
    const results: array<Option<CharMap>>
    /** Null until the first `Process`. */
    var Result: Option<CharMap>
    /** The `ProcessValue` calls made so far, in order. */
    ghost var calls: seq<Call>

    ghost predicate Valid() {
      results.Length == threads
    }

    /** A new instance: every per-thread slot null, no result yet. */
    constructor(threadCount: nat, data: array<char>)
      ensures Valid()
      ensures threads == threadCount && items == data
      ensures fresh(results) && results[..] == seq(threadCount, _ => None)
      ensures Result == None && calls == []
    {
      threads := threadCount;
      items := data;
      results := new Option<CharMap>[threadCount](_ => None);
      Result := None;
      calls := [];
    }

    /**
     * `ProcessValue`: count item `itemIndex` of the span into this thread's
     * dictionary, allocating it first if it is null; no other slot changes.
     */
    method ProcessValue(threadIndex: nat, itemIndex: nat, span: Range)
      requires Valid() && threadIndex < threads
      requires span.lo + itemIndex < span.hi <= items.Length
      modifies this, results
      ensures results[..] == old(results[..])[threadIndex := CountStep(old(results[threadIndex]), items[span.lo + itemIndex])]
      ensures Result == old(Result)
      ensures calls == old(calls) + [Call(threadIndex, itemIndex)]
    {
      var ch := items[span.lo + itemIndex];
      var dic := results[threadIndex];
      if dic.None? {
        dic := Some(map[]);
        results[threadIndex] := dic;
      }
      // A map is a value: the update is written back into the slot.
      if ch in dic.value {
        results[threadIndex] := Some(dic.value[ch := dic.value[ch] + 1]);
      } else {
        results[threadIndex] := Some(dic.value[ch := 1]);
      }
      calls := calls + [Call(threadIndex, itemIndex)];
    }

    /** `ThreadProc(index)`: count the thread's slice, in order, into its own slot. */
    method ThreadProc(index: nat)
      requires Valid() && index < threads
      modifies this, results
      ensures var s := Slice(items.Length, threads, index);
        results[..] == old(results[..])[index := CountSpan(old(results[index]), items[s.lo..s.hi])]
      ensures Result == old(Result)
      ensures calls == old(calls) + ThreadCalls(items.Length, threads, index)
    {
      var s := Slice(items.Length, threads, index);
      for i := 0 to s.hi - s.lo
        invariant results[..] == old(results[..])[index := CountSpan(old(results[index]), items[s.lo..s.lo + i])]
        invariant Result == old(Result)
        invariant calls == old(calls) + seq(i, (k: nat) => Call(index, k))
      {
        ghost var mid, longer, log := results[..], items[s.lo..s.lo + i + 1], calls;
        assert longer[..i] == items[s.lo..s.lo + i];
        ProcessValue(index, i, s);
        CountedSlotStep(old(results[..]), index, old(results[index]), longer, mid, results[..]);
        ThreadCallsStep(index, i, old(calls), log);
      }
    }

    /** `MultiThreadingProcessor.Process`: run thread 0, 1, ..., threads - 1, each on its own slot. */
    method RunThreads()
      requires Valid()
      modifies this, results
      ensures results[..] == Counted(old(results[..]), items[..])
      ensures Result == old(Result)
      ensures calls == old(calls) + Schedule(items.Length, threads, threads)
    {
      ghost var before, a, log0 := results[..], items[..], calls;
      for t := 0 to threads
        invariant Ran(before, a, log0, t)
        invariant Result == old(Result)
      {
        RunThread(t, before, a, log0);
      }
    }

    /** The state once threads 0 .. t - 1 have run, starting from slots `before` and log `log0`, over items `a`. */
    ghost predicate Ran(before: seq<Option<CharMap>>, a: seq<char>, log0: seq<Call>, t: nat)
      reads this, results, items
    {
      Valid() && |before| == threads && t <= threads && items[..] == a
      && results[..] == CountedUpTo(before, a, t)
      && calls == log0 + Schedule(|a|, threads, t)
    }

    /** One thread of the loop: thread `t` starts and runs to completion. */
    method RunThread(t: nat, ghost before: seq<Option<CharMap>>, ghost a: seq<char>, ghost log0: seq<Call>)
      requires t < threads && Ran(before, a, log0, t)
      modifies this, results
      ensures Ran(before, a, log0, t + 1)
      ensures Result == old(Result)
    {
      ghost var mid, log := results[..], calls;
      ThreadProc(t);
      ScheduleStep(|a|, threads, t, log0, log, calls);
      CountedStep(before, a, t, mid, results[..]);
    }

    /**
     * The merge half of `FreqChar.Process`: a new `Result`, into which the
     * slots are merged in thread order. Iterating a null slot throws a null
     * reference (`thrown`), leaving `Result` with the slots before it merged.
     */
    method MergeResults() returns (thrown: Option<Fault>)
      requires Valid()
      modifies this
      ensures thrown.None? <==> forall u :: 0 <= u < threads ==> results[u].Some?
      ensures thrown.Some? ==> thrown.value == NullReference
      ensures Result == Some(Merged(Present(results[..][..FirstMissing(results[..])])))
      ensures calls == old(calls)
    {
      ghost var ds := results[..];
      Result := Some(map[]);
      for t := 0 to threads
        invariant forall u :: 0 <= u < t ==> ds[u].Some?
        invariant Result == Some(Merged(Present(ds[..t])))
        invariant calls == old(calls)
      {
        if results[t].None? {
          FirstMissingAt(ds, t);
          return Some(NullReference);
        }
        MergedPresentStep(ds, t);
        var merged := MergeInto(Result.value, results[t].value);
        Result := Some(merged);
      }
      FirstMissingAt(ds, threads);
      assert ds[..threads] == ds;
      return None;
    }

    /** `FreqChar.Process`: run the threads, then merge their dictionaries. */
    method Process() returns (thrown: Option<Fault>)
      requires Valid()
      modifies this, results
      ensures results[..] == Counted(old(results[..]), items[..])
      ensures thrown.None? <==> forall u :: 0 <= u < threads ==> results[u].Some?
      ensures thrown.Some? ==> thrown.value == NullReference
      ensures Result == Some(Merged(Present(results[..][..FirstMissing(results[..])])))
      ensures calls == old(calls) + Schedule(items.Length, threads, threads)
    {
      RunThreads();
      thrown := MergeResults();
    }
  }

  /** One run on a fresh instance with 1 <= threads <= |a|: every slot holds the histogram of its slice. */
  lemma FirstRun(a: seq<char>, threads: nat)
    requires 1 <= threads <= |a|
    ensures Counted(seq(threads, _ => None), a) == Wrapped(SliceHistograms(a, threads))
  {
    AllSlicesNonEmpty(|a|, threads);
    forall u | 0 <= u < threads
      ensures Counted(seq(threads, _ => None), a)[u] == Wrapped(SliceHistograms(a, threads))[u]
    {
      var s := Slice(|a|, threads, u);
      CountFresh(a[s.lo..s.hi]);
    }
  }

  /** A second run on top of the first: every slot holds its slice's histogram doubled. */
  lemma SecondRun(a: seq<char>, threads: nat)
    requires 1 <= threads <= |a|
    ensures var hs := SliceHistograms(a, threads);
      Counted(Wrapped(hs), a) == Wrapped(seq(threads, u requires 0 <= u < threads => Doubled(hs[u])))
  {
    var hs := SliceHistograms(a, threads);
    forall u | 0 <= u < threads
      ensures Counted(Wrapped(hs), a)[u] == Wrapped(seq(threads, u requires 0 <= u < threads => Doubled(hs[u])))[u]
    {
      var s := Slice(|a|, threads, u);
      CountAgain(a[s.lo..s.hi]);
    }
  }

  /**
   * Two runs on a fresh instance with 1 <= threads <= |a|: neither merge
   * meets a null slot; the first merges to the histogram of `a`, the second
   * to the histogram doubled.
   */
  lemma TwoRuns(a: seq<char>, threads: nat)
    requires 1 <= threads <= |a|
    ensures var first := Counted(seq(threads, _ => None), a);
      FirstMissing(first) == threads && Merged(Present(first[..FirstMissing(first)])) == Histogram(a)
    ensures var second := Counted(Counted(seq(threads, _ => None), a), a);
      FirstMissing(second) == threads && Merged(Present(second[..FirstMissing(second)])) == Doubled(Histogram(a))
  {
    var hs := SliceHistograms(a, threads);
    var dhs := seq(threads, u requires 0 <= u < threads => Doubled(hs[u]));
    FirstRun(a, threads);
    PresentWrapped(hs);
    SliceHistogramsTotal(a, threads);
    SecondRun(a, threads);
    PresentWrapped(dhs);
    MergedDoubled(hs);
  }

  /** With more threads than characters, thread 0's slice is empty, so its slot stays null. */
  lemma OversubscribedRun(a: seq<char>, threads: nat)
    requires threads > |a|
    ensures Counted(seq(threads, _ => None), a)[0] == None
  {
    if threads > 1 {
      OversubscribedSlices(|a|, threads);
    }
    assert Slice(|a|, threads, 0) == Range(0, 0);
  }

  /**
   * A fresh instance processed twice. With no more threads than characters
   * (and at least one) nothing throws, the first `Result` maps each
   * character to its number of occurrences and the second to twice that.
   * Then every count is at least 1 and the counts add up to the length of
   * the array. The first run throws exactly when there are more threads
   * than characters, and then the first slot is already null, so `Result`
   * is empty.
   */
  method ProcessTwice(threadCount: nat, data: array<char>)
    returns (thrown1: Option<Fault>, r1: Option<CharMap>, thrown2: Option<Fault>, r2: Option<CharMap>)
    ensures thrown1.None? <==> threadCount <= data.Length
    ensures threadCount == 0 ==> r1 == Some(map[]) && r2 == Some(map[])
    ensures threadCount > data.Length ==> thrown1 == Some(NullReference) && r1 == Some(map[])
    ensures 1 <= threadCount <= data.Length ==>
      thrown2.None? && r1 == Some(Histogram(data[..])) && r2 == Some(Doubled(Histogram(data[..])))
    ensures 1 <= threadCount <= data.Length ==>
      (forall c :: c in r1.value ==> r1.value[c] >= 1) && Total(r1.value) == data.Length
  {
    var p := new FreqChar(threadCount, data);
    ghost var a := data[..];
    ghost var fresh0 := p.results[..];
    thrown1 := p.Process();
    r1 := p.Result;
    ghost var first := p.results[..];
    assert first == Counted(fresh0, a);
    thrown2 := p.Process();
    r2 := p.Result;
    ghost var second := p.results[..];
    assert second == Counted(first, a);
    assert data[..] == a;
    if threadCount == 0 {
      assert first == [] && second == [];
    } else if threadCount <= |a| {
      TwoRuns(a, threadCount);
      TotalHistogram(a);
    } else {
      OversubscribedRun(a, threadCount);
      assert first[0] == None;
    }
  }
}
