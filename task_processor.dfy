/**
 * The task-based reducing processor (`MultiTaskProcessor<TItem, TResult>`):
 * `Process` cuts the array into one slice per task and each task folds its
 * slice, left to right, into an accumulator that starts at `default(TResult)`,
 * checking the cancellation token before every item.
 *
 * The tasks run one after another here; each reads only its own slice and
 * produces only its own result, so the order of the tasks does not matter.
 * The cancellation token is an oracle: `cancelled(t, i)` is what task `t`
 * sees when it checks the token before item `i` of its slice.
 */
module TaskProcessor {
  import opened Partition

  /** The token is never seen set. */
  ghost predicate NeverCancelled(cancelled: (nat, nat) -> bool) {
    forall t: nat, i: nat :: !cancelled(t, i)
  }

  /** The first position at or after `from` where task `t` sees the token set, or the slice length. */
  function StopFrom(cancelled: (nat, nat) -> bool, t: nat, from: nat, len: nat): (k: nat)
    requires from <= len
    ensures from <= k <= len
    ensures forall i :: from <= i < k ==> !cancelled(t, i)
    ensures k < len ==> cancelled(t, k)
    decreases len - from
  {
    if from == len || cancelled(t, from) then from else StopFrom(cancelled, t, from + 1, len)
  }

  /**
   * How many items task `t` processes in a slice of `len` items: all of them
   * when it never sees the token, otherwise those before the first check
   * that sees it.
   */
  function StopIndex(cancelled: (nat, nat) -> bool, t: nat, len: nat): (k: nat)
    ensures k <= len
    ensures forall i :: 0 <= i < k ==> !cancelled(t, i)
    ensures k < len ==> cancelled(t, k)
    ensures NeverCancelled(cancelled) ==> k == len
  {
    StopFrom(cancelled, t, 0, len)
  }

  /** Folding `item` over `items` from the left, starting at `seed`. */
  function FoldItems<T, R>(item: (nat, T, R) -> R, t: nat, items: seq<T>, seed: R): R
    decreases |items|
  {
    if items == [] then seed
    else item(t, items[|items| - 1], FoldItems(item, t, items[..|items| - 1], seed))
  }

  /**
   * The per-task loop: starting from `seed`, apply `item` to each item of the
   * slice in index order until the token is seen or the slice ends.
   */
  method ProcessPartArray<T, R>(t: nat, span: seq<T>, cancelled: (nat, nat) -> bool,
                                seed: R, item: (nat, T, R) -> R)
    returns (result: R)
    ensures result == FoldItems(item, t, span[..StopIndex(cancelled, t, |span|)], seed)
  {
    result := seed;
    var i := 0;
    while !cancelled(t, i) && i < |span|
      invariant 0 <= i <= StopIndex(cancelled, t, |span|)
      invariant result == FoldItems(item, t, span[..i], seed)
    {
      assert span[..i + 1][..i] == span[..i];
      result := item(t, span[i], result);
      i := i + 1;
    }
  }

  /** The items task `t` of `tasks` gets through: a prefix of its slice. */
  function Processed<T>(a: seq<T>, tasks: nat, t: nat, cancelled: (nat, nat) -> bool): (p: seq<T>)
    requires t < tasks
    ensures var s := Slice(|a|, tasks, t); s.lo + |p| <= s.hi && p == a[s.lo..s.lo + |p|]
    ensures NeverCancelled(cancelled) ==> var s := Slice(|a|, tasks, t); p == a[s.lo..s.hi]
  {
    var s := Slice(|a|, tasks, t);
    var span := a[s.lo..s.hi];
    span[..StopIndex(cancelled, t, |span|)]
  }

  /** What task `t` of `tasks` returns for array contents `a`: the fold over the items it got through. */
  function TaskResult<T, R>(a: seq<T>, tasks: nat, t: nat, cancelled: (nat, nat) -> bool,
                            seed: R, item: (nat, T, R) -> R): R
    requires t < tasks
  {
    FoldItems(item, t, Processed(a, tasks, t, cancelled), seed)
  }

  /** A task's result depends only on its own slice and on what it sees of the token. */
  lemma TaskResultIsLocal<T, R>(a: seq<T>, b: seq<T>, tasks: nat, t: nat,
                                cancelled: (nat, nat) -> bool, cancelled': (nat, nat) -> bool,
                                seed: R, item: (nat, T, R) -> R)
    requires t < tasks && |a| == |b|
    requires var s := Slice(|a|, tasks, t); a[s.lo..s.hi] == b[s.lo..s.hi]
    requires forall i: nat :: cancelled(t, i) == cancelled'(t, i)
    ensures TaskResult(a, tasks, t, cancelled, seed, item) == TaskResult(b, tasks, t, cancelled', seed, item)
  {
    var s := Slice(|a|, tasks, t);
    StopFromIsLocal(cancelled, cancelled', t, 0, s.hi - s.lo);
  }

  /** Where the loop stops depends only on what this task sees of the token. */
  lemma {:induction false} StopFromIsLocal(cancelled: (nat, nat) -> bool, cancelled': (nat, nat) -> bool,
                                           t: nat, from: nat, len: nat)
    requires from <= len
    requires forall i: nat :: cancelled(t, i) == cancelled'(t, i)
    ensures StopFrom(cancelled, t, from, len) == StopFrom(cancelled', t, from, len)
    decreases len - from
  {
    if from < len && !cancelled(t, from) {
      StopFromIsLocal(cancelled, cancelled', t, from + 1, len);
    }
  }

  /** The results of all tasks, in task order. */
  function TaskResults<T, R>(a: seq<T>, tasks: nat, cancelled: (nat, nat) -> bool,
                             seed: R, item: (nat, T, R) -> R): (r: seq<R>)
    ensures |r| == tasks
  {
    seq(tasks, t requires 0 <= t < tasks => TaskResult(a, tasks, t, cancelled, seed, item))
  }

  /**
   * `Process`: one task per slot of the task array, task `t` folding slice
   * `t`; returns once every task is done, with the tasks' results in order.
   */
  method Process<T, R>(a: array<T>, taskCount: nat, cancelled: (nat, nat) -> bool,
                       seed: R, item: (nat, T, R) -> R)
    returns (results: seq<R>)
    ensures results == TaskResults(a[..], taskCount, cancelled, seed, item)
  {
    results := [];
    for t := 0 to taskCount
      invariant |results| == t
      invariant forall u :: 0 <= u < t ==> results[u] == TaskResult(a[..], taskCount, u, cancelled, seed, item)
    {
      var s := Slice(a.Length, taskCount, t);
      var r := ProcessPartArray(t, a[s.lo..s.hi], cancelled, seed, item);
      results := results + [r];
    }
    assert results == TaskResults(a[..], taskCount, cancelled, seed, item);
  }
}
