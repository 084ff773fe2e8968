/**
 * The thread-based processor (`MultiThreadingProcessor<T>`): `Process` starts
 * one thread per slot of the thread array and joins them all; thread `index`
 * calls `ProcessValue(index, i, span)` for every position `i` of its slice,
 * in order, with no cancellation.
 *
 * The threads run one after another here. What they do is recorded as the
 * sequence of `ProcessValue` calls; the schedule below is that sequence when
 * the threads run in index order.
 */
module ThreadsProcessor {
  import opened Partition

  /** One `ProcessValue(threadIndex, itemIndex, span)` call. */
  datatype Call = Call(threadIndex: nat, itemIndex: nat)

  /** The calls thread `index` of `threads` makes: one per position of its slice, in order. */
  function ThreadCalls(len: nat, threads: nat, index: nat): (r: seq<Call>)
    requires index < threads
    ensures var s := Slice(len, threads, index);
      |r| == s.hi - s.lo && forall i :: 0 <= i < |r| ==> r[i] == Call(index, i)
  {
    var s := Slice(len, threads, index);
    seq(s.hi - s.lo, (i: nat) => Call(index, i))
  }

  /** A log holding thread `index`'s first `i` calls, extended by its next call, holds its first `i + 1`. */
  lemma ThreadCallsStep(index: nat, i: nat, prefix: seq<Call>, log: seq<Call>)
    requires log == prefix + seq(i, (k: nat) => Call(index, k))
    ensures log + [Call(index, i)] == prefix + seq(i + 1, (k: nat) => Call(index, k))
  {
    assert seq(i + 1, (k: nat) => Call(index, k)) == seq(i, (k: nat) => Call(index, k)) + [Call(index, i)];
  }

  /** The calls of threads 0 .. upTo - 1 in thread order. */
  function Schedule(len: nat, threads: nat, upTo: nat): seq<Call>
    requires upTo <= threads
  {
    if upTo == 0 then [] else Schedule(len, threads, upTo - 1) + ThreadCalls(len, threads, upTo - 1)
  }

  /** A log holding the calls of the first `t` threads, extended by thread `t`'s calls, holds those of the first `t + 1`. */
  lemma ScheduleStep(len: nat, threads: nat, t: nat, prefix: seq<Call>, log: seq<Call>, cur: seq<Call>)
    requires t < threads && log == prefix + Schedule(len, threads, t)
    requires cur == log + ThreadCalls(len, threads, t)
    ensures cur == prefix + Schedule(len, threads, t + 1)
  {
    assert Schedule(len, threads, t + 1) == Schedule(len, threads, t) + ThreadCalls(len, threads, t);
  }

  /**
   * The calls of the first `upTo` threads visit the array positions below
   * the end of their slices, each once and in increasing order: the k-th
   * call is the one for array position k.
   */
  lemma {:induction false} SchedulePrefix(len: nat, threads: nat, upTo: nat)
    requires upTo <= threads
    ensures var sched := Schedule(len, threads, upTo);
      |sched| == SlicesEnd(len, threads, upTo)
      && forall k :: 0 <= k < |sched| ==>
        var c := sched[k];
        c.threadIndex < upTo
        && (var s := Slice(len, threads, c.threadIndex); c.itemIndex < s.hi - s.lo && s.lo + c.itemIndex == k)
  {
    if upTo > 0 {
      SchedulePrefix(len, threads, upTo - 1);
      if upTo > 1 {
        SlicesAdjacent(len, threads, upTo - 2);
      }
      var before := Schedule(len, threads, upTo - 1);
      var mine := ThreadCalls(len, threads, upTo - 1);
      var sched := before + mine;
      forall k | |before| <= k < |sched|
        ensures var c := sched[k];
          c.threadIndex < upTo
          && (var s := Slice(len, threads, c.threadIndex); c.itemIndex < s.hi - s.lo && s.lo + c.itemIndex == k)
      {
        assert sched[k] == mine[k - |before|];
      }
    }
  }

  /**
   * A whole run with at least one thread makes exactly one call per array
   * position, and the k-th call processes array position k: every element
   * is processed exactly once, by the thread whose slice holds it.
   */
  lemma ScheduleCoversOnce(len: nat, threads: nat)
    requires 1 <= threads
    ensures |Schedule(len, threads, threads)| == len
    ensures forall k :: 0 <= k < len ==>
      var c := Schedule(len, threads, threads)[k];
      c.threadIndex == Owner(len, threads, k)
      && (var s := Slice(len, threads, c.threadIndex); c.itemIndex < s.hi - s.lo && s.lo + c.itemIndex == k)
  {
    SchedulePrefix(len, threads, threads);
    var sched := Schedule(len, threads, threads);
    forall k | 0 <= k < len
      ensures sched[k].threadIndex == Owner(len, threads, k)
    {
      OwnerUnique(len, threads, k, sched[k].threadIndex);
    }
  }
}
