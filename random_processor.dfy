/**
 * The non-reducing task processor (`MultiTaskProcessor<TItem>`) with its one
 * specialisation, `MultiTaskRandomProcessor`: every task overwrites the items
 * of its own slice, in index order, with values drawn from its own random
 * generator, checking the cancellation token before every item.
 *
 * The generators are not modelled: `randomize(t, i)` is the value task `t`'s
 * generator yields for the `i`-th item of its slice during this call.
 */
module RandomProcessor {
  import opened Partition
  import opened TaskProcessor

  /** `MultiTaskRandomProcessor.ProcessItem`: write one generated value into the slice. */
  method ProcessItem<T>(a: array<T>, span: Range, t: nat, i: nat, randomize: (nat, nat) -> T)
    requires span.lo + i < span.hi <= a.Length
    modifies a
    ensures a[..] == old(a[..])[span.lo + i := randomize(t, i)]
  {
    a[span.lo + i] := randomize(t, i);
  }

  /**
   * The per-task loop: items of the slice are overwritten in index order
   * until the token is seen; nothing outside the slice is written.
   * `written` lists the array indices written, in order.
   */
  method ProcessPartArray<T>(a: array<T>, t: nat, span: Range, cancelled: (nat, nat) -> bool,
                             randomize: (nat, nat) -> T)
    returns (ghost written: seq<nat>)
    requires span.lo <= span.hi <= a.Length
    modifies a
    ensures var k := StopIndex(cancelled, t, span.hi - span.lo);
      forall j :: 0 <= j < a.Length ==>
        a[j] == if span.lo <= j < span.lo + k then randomize(t, j - span.lo) else old(a[j])
    ensures written == seq(StopIndex(cancelled, t, span.hi - span.lo), i => span.lo + i)
  {
    var i := 0;
    written := [];
    while !cancelled(t, i) && i < span.hi - span.lo
      invariant 0 <= i <= StopIndex(cancelled, t, span.hi - span.lo)
      invariant forall j :: 0 <= j < a.Length ==>
        a[j] == if span.lo <= j < span.lo + i then randomize(t, j - span.lo) else old(a[j])
      invariant written == seq(i, k => span.lo + k)
    {
      ProcessItem(a, span, t, i, randomize);
      written := written + [span.lo + i];
      i := i + 1;
    }
  }

  /** What the array holds after `Process` when it held `a` before. */
  function Filled<T>(a: seq<T>, tasks: nat, cancelled: (nat, nat) -> bool,
                     randomize: (nat, nat) -> T): (r: seq<T>)
    ensures |r| == |a|
  {
    seq(|a|, j requires 0 <= j < |a| =>
      if tasks == 0 then a[j]
      else
        var w := Owner(|a|, tasks, j);
        var s := Slice(|a|, tasks, w);
        if j - s.lo < StopIndex(cancelled, w, s.hi - s.lo) then randomize(w, j - s.lo) else a[j])
  }

  /** Uncancelled, with at least one task, every item holds the value its owning task generated for it. */
  lemma FilledEverywhere<T>(a: seq<T>, tasks: nat, cancelled: (nat, nat) -> bool,
                            randomize: (nat, nat) -> T)
    requires 1 <= tasks && NeverCancelled(cancelled)
    ensures forall j :: 0 <= j < |a| ==>
      var w := Owner(|a|, tasks, j);
      Filled(a, tasks, cancelled, randomize)[j] == randomize(w, j - Slice(|a|, tasks, w).lo)
  {
  }

  /** The array once the first `t` tasks are done: their items as `after` has them, the rest as `before`. */
  function Stage<T>(before: seq<T>, after: seq<T>, tasks: nat, t: nat): (r: seq<T>)
    requires |before| == |after|
    ensures |r| == |before|
  {
    seq(|before|, j requires 0 <= j < |before| =>
      if tasks >= 1 && Owner(|before|, tasks, j) < t then after[j] else before[j])
  }

  /** Once every task has run, the array is filled. */
  lemma StageComplete<T>(before: seq<T>, tasks: nat, cancelled: (nat, nat) -> bool, randomize: (nat, nat) -> T)
    ensures var after := Filled(before, tasks, cancelled, randomize);
      Stage(before, after, tasks, tasks) == after
  {
  }

  /** Running task `t` takes the array from stage `t` to stage `t + 1`. */
  lemma StageStep<T>(before: seq<T>, mid: seq<T>, cur: seq<T>, tasks: nat, t: nat,
                     cancelled: (nat, nat) -> bool, randomize: (nat, nat) -> T)
    requires t < tasks && |before| == |mid| == |cur|
    requires mid == Stage(before, Filled(before, tasks, cancelled, randomize), tasks, t)
    requires var s := Slice(|before|, tasks, t); var k := StopIndex(cancelled, t, s.hi - s.lo);
      forall j :: 0 <= j < |cur| ==>
        cur[j] == if s.lo <= j < s.lo + k then randomize(t, j - s.lo) else mid[j]
    ensures cur == Stage(before, Filled(before, tasks, cancelled, randomize), tasks, t + 1)
  {
    var after := Filled(before, tasks, cancelled, randomize);
    var s := Slice(|before|, tasks, t);
    forall j | 0 <= j < |cur|
      ensures cur[j] == Stage(before, after, tasks, t + 1)[j]
    {
      if s.Contains(j) {
        OwnerUnique(|before|, tasks, j, t);
      }
    }
  }

  /** Appending the indices task `t` wrote keeps the log increasing, below the index reached, and gap-free when uncancelled. */
  lemma WrittenStep(len: nat, tasks: nat, t: nat, cancelled: (nat, nat) -> bool,
                    written: seq<nat>, w: seq<nat>)
    requires t < tasks
    requires forall p, q :: 0 <= p < q < |written| ==> written[p] < written[q]
    requires forall p :: 0 <= p < |written| ==> written[p] < SlicesEnd(len, tasks, t)
    requires NeverCancelled(cancelled) ==> written == seq(SlicesEnd(len, tasks, t), j => j)
    requires var s := Slice(len, tasks, t); w == seq(StopIndex(cancelled, t, s.hi - s.lo), i => s.lo + i)
    ensures var all := written + w;
      (forall p, q :: 0 <= p < q < |all| ==> all[p] < all[q])
      && (forall p :: 0 <= p < |all| ==> all[p] < SlicesEnd(len, tasks, t + 1))
      && (NeverCancelled(cancelled) ==> all == seq(SlicesEnd(len, tasks, t + 1), j => j))
  {
    var s := Slice(len, tasks, t);
    if t > 0 {
      SlicesAdjacent(len, tasks, t - 1);
    }
    assert SlicesEnd(len, tasks, t) == s.lo;
  }

  /**
   * `Process`: one task per slice. Each item ends up with the value its
   * owning task generated for it if that task got that far, and keeps its
   * old value otherwise. The indices written strictly increase, so none is
   * written twice; uncancelled, with at least one task, they are exactly
   * 0, 1, ..., a.Length - 1.
   */
  method Process<T>(a: array<T>, taskCount: nat, cancelled: (nat, nat) -> bool,
                    randomize: (nat, nat) -> T)
    returns (ghost written: seq<nat>)
    modifies a
    ensures a[..] == Filled(old(a[..]), taskCount, cancelled, randomize)
    ensures forall p, q :: 0 <= p < q < |written| ==> written[p] < written[q]
    ensures forall p :: 0 <= p < |written| ==> written[p] < a.Length
    ensures NeverCancelled(cancelled) && taskCount >= 1 ==> written == seq(a.Length, j => j)
  {
    ghost var before := a[..];
    ghost var after := Filled(before, taskCount, cancelled, randomize);
    written := [];
    for t := 0 to taskCount
      invariant a[..] == Stage(before, after, taskCount, t)
      invariant forall p, q :: 0 <= p < q < |written| ==> written[p] < written[q]
      invariant forall p :: 0 <= p < |written| ==> written[p] < SlicesEnd(a.Length, taskCount, t)
      invariant NeverCancelled(cancelled) ==> written == seq(SlicesEnd(a.Length, taskCount, t), j => j)
    {
      var s := Slice(a.Length, taskCount, t);
      ghost var mid := a[..];
      ghost var w := ProcessPartArray(a, t, s, cancelled, randomize);
      StageStep(before, mid, a[..], taskCount, t, cancelled, randomize);
      WrittenStep(a.Length, taskCount, t, cancelled, written, w);
      written := written + w;
    }
    StageComplete(before, taskCount, cancelled, randomize);
  }
}
