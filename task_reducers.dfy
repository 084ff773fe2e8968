/**
 * The four reducing task processors: `MultiTaskSumProcessor`,
 * `MultiTaskMinProcessor`, `MultiTaskMaxProcessor` and
 * `MultiTaskCharProcessor`. Each supplies a per-item step (`ProcessItem`)
 * and a combine step over the tasks' results (`HandleResults`); each
 * `...Process` method below is the base `Process` followed by its
 * `HandleResults`.
 */
module TaskReducers {
  import opened Results
  import opened Partition
  import opened Aggregates
  import opened CharCounts
  import opened TaskProcessor

  // ---------------------------------------------------------------- sum

  /** `MultiTaskSumProcessor.ProcessItem`: add the item to the running sum. */
  function SumItem(t: nat, x: int, acc: int): (r: int)
    ensures forall s: seq<int> :: acc == Sum(s) ==> r == Sum(s + [x])
  {
    assert forall s: seq<int> :: (s + [x])[..|s|] == s;
    acc + x
  }

  /** Folding the sum step adds the items to the seed. */
  lemma {:induction false} FoldSum(t: nat, items: seq<int>, acc: int)
    ensures FoldItems(SumItem, t, items, acc) == acc + Sum(items)
    decreases |items|
  {
    if items != [] {
      FoldSum(t, items[..|items| - 1], acc);
    }
  }

  /** The sum of what each task got through, in task order. */
  function ProcessedSums(a: seq<int>, tasks: nat, cancelled: (nat, nat) -> bool): (r: seq<int>)
    ensures |r| == tasks
  {
    seq(tasks, t requires 0 <= t < tasks => Sum(Processed(a, tasks, t, cancelled)))
  }

  /** Each sum task returns the sum of the items it got through; uncancelled, the sum of its slice. */
  lemma SumTaskResults(a: seq<int>, tasks: nat, cancelled: (nat, nat) -> bool)
    ensures TaskResults(a, tasks, cancelled, 0, SumItem) == ProcessedSums(a, tasks, cancelled)
    ensures NeverCancelled(cancelled) ==> ProcessedSums(a, tasks, cancelled) == SliceSums(a, tasks)
  {
    forall t | 0 <= t < tasks
      ensures TaskResults(a, tasks, cancelled, 0, SumItem)[t] == ProcessedSums(a, tasks, cancelled)[t]
    {
      FoldSum(t, Processed(a, tasks, t, cancelled), 0);
    }
  }

  /**
   * `MultiTaskSumProcessor.Process`: the sum of the tasks' results. That is
   * the sum of every item some task got through; when the token is never
   * seen and there is at least one task it is the sum of the whole array,
   * whatever the task count.
   */
  method SumProcess(a: array<int>, taskCount: nat, cancelled: (nat, nat) -> bool) returns (r: int)
    ensures r == Sum(ProcessedSums(a[..], taskCount, cancelled))
    ensures NeverCancelled(cancelled) && taskCount >= 1 ==> r == Sum(a[..])
    ensures taskCount == 0 ==> r == 0
  {
    var results := Process(a, taskCount, cancelled, 0, SumItem);
    SumTaskResults(a[..], taskCount, cancelled);
    if NeverCancelled(cancelled) && taskCount >= 1 {
      SliceSumsTotal(a[..], taskCount);
    }
    r := Sum(results);
  }

  // ------------------------------------------------------------ min / max

  /** `MultiTaskMinProcessor.ProcessItem`: keep the smaller of the accumulator and the item. */
  function MinItem(t: nat, x: int, acc: int): (r: int)
    ensures r <= acc && r <= x && (r == acc || r == x)
  {
    if acc > x then x else acc
  }

  /** `MultiTaskMaxProcessor.ProcessItem`: keep the larger of the accumulator and the item. */
  function MaxItem(t: nat, x: int, acc: int): (r: int)
    ensures r >= acc && r >= x && (r == acc || r == x)
  {
    if acc < x then x else acc
  }

  /** Folding the min step gives the minimum of the seed and the items. */
  lemma {:induction false} FoldMin(t: nat, items: seq<int>, acc: int)
    ensures var r := FoldItems(MinItem, t, items, acc);
      r <= acc && (forall i :: 0 <= i < |items| ==> r <= items[i]) && (r == acc || r in items)
    decreases |items|
  {
    if items != [] {
      var init := items[..|items| - 1];
      FoldMin(t, init, acc);
      assert items == init + [items[|items| - 1]];
    }
  }

  /** Folding the max step gives the maximum of the seed and the items. */
  lemma {:induction false} FoldMax(t: nat, items: seq<int>, acc: int)
    ensures var r := FoldItems(MaxItem, t, items, acc);
      r >= acc && (forall i :: 0 <= i < |items| ==> r >= items[i]) && (r == acc || r in items)
    decreases |items|
  {
    if items != [] {
      var init := items[..|items| - 1];
      FoldMax(t, init, acc);
      assert items == init + [items[|items| - 1]];
    }
  }

  /** `MultiTaskMinProcessor.HandleResults`: LINQ `Min`, which throws on no elements. */
  function HandleMinResults(results: seq<int>): (r: Result<int>)
    ensures r.Err? <==> results == []
    ensures r.Err? ==> r.fault == EmptySequence
    ensures r.Ok? ==> r.value in results && forall t :: 0 <= t < |results| ==> r.value <= results[t]
  {
    if results == [] then Err(EmptySequence) else Ok(SeqMin(results))
  }

  /** `MultiTaskMaxProcessor.HandleResults`: LINQ `Max`, which throws on no elements. */
  function HandleMaxResults(results: seq<int>): (r: Result<int>)
    ensures r.Err? <==> results == []
    ensures r.Err? ==> r.fault == EmptySequence
    ensures r.Ok? ==> r.value in results && forall t :: 0 <= t < |results| ==> results[t] <= r.value
  {
    if results == [] then Err(EmptySequence) else Ok(SeqMax(results))
  }

  /** An item some task got through is an item of the array. */
  lemma ProcessedIn<T>(a: seq<T>, tasks: nat, t: nat, cancelled: (nat, nat) -> bool, x: T)
    requires t < tasks && x in Processed(a, tasks, t, cancelled)
    ensures x in a
  {
    var p := Processed(a, tasks, t, cancelled);
    var s := Slice(|a|, tasks, t);
    var i :| 0 <= i < |p| && p[i] == x;
    assert a[s.lo + i] == x;
  }

  /**
   * One min task's result: the minimum of 0 and the items the task got
   * through. It is at most 0, 0 or an array item, and at most every item of
   * its slice when uncancelled.
   */
  lemma MinTaskResult(a: seq<int>, tasks: nat, cancelled: (nat, nat) -> bool, t: nat)
    requires t < tasks
    ensures var r := TaskResults(a, tasks, cancelled, 0, MinItem)[t];
      var p := Processed(a, tasks, t, cancelled);
      r <= 0 && (forall x :: x in p ==> r <= x) && (r == 0 || r in p)
    ensures var r := TaskResults(a, tasks, cancelled, 0, MinItem)[t];
      (r == 0 || r in a)
      && (NeverCancelled(cancelled) ==>
            var s := Slice(|a|, tasks, t); forall j :: s.lo <= j < s.hi ==> r <= a[j])
  {
    var p := Processed(a, tasks, t, cancelled);
    FoldMin(t, p, 0);
    var r := FoldItems(MinItem, t, p, 0);
    if r != 0 {
      ProcessedIn(a, tasks, t, cancelled, r);
    }
    if NeverCancelled(cancelled) {
      var s := Slice(|a|, tasks, t);
      forall j | s.lo <= j < s.hi ensures r <= a[j] {
        assert p[j - s.lo] == a[j];
      }
    }
  }

  /**
   * One max task's result: the maximum of 0 and the items the task got
   * through. It is at least 0, 0 or an array item, and at least every item
   * of its slice when uncancelled.
   */
  lemma MaxTaskResult(a: seq<int>, tasks: nat, cancelled: (nat, nat) -> bool, t: nat)
    requires t < tasks
    ensures var r := TaskResults(a, tasks, cancelled, 0, MaxItem)[t];
      var p := Processed(a, tasks, t, cancelled);
      r >= 0 && (forall x :: x in p ==> r >= x) && (r == 0 || r in p)
    ensures var r := TaskResults(a, tasks, cancelled, 0, MaxItem)[t];
      (r == 0 || r in a)
      && (NeverCancelled(cancelled) ==>
            var s := Slice(|a|, tasks, t); forall j :: s.lo <= j < s.hi ==> r >= a[j])
  {
    var p := Processed(a, tasks, t, cancelled);
    FoldMax(t, p, 0);
    var r := FoldItems(MaxItem, t, p, 0);
    if r != 0 {
      ProcessedIn(a, tasks, t, cancelled, r);
    }
    if NeverCancelled(cancelled) {
      var s := Slice(|a|, tasks, t);
      forall j | s.lo <= j < s.hi ensures r >= a[j] {
        assert p[j - s.lo] == a[j];
      }
    }
  }

  /**
   * Combining the min tasks: every task starts from 0, so the minimum of
   * their results is at most 0 and is 0 or an item of the array; when the
   * token is never seen it is also at most every item of the array.
   */
  lemma MinOfTasks(a: seq<int>, tasks: nat, cancelled: (nat, nat) -> bool)
    requires 1 <= tasks
    ensures var m := SeqMin(TaskResults(a, tasks, cancelled, 0, MinItem));
      m <= 0
      && (forall t, x :: 0 <= t < tasks && x in Processed(a, tasks, t, cancelled) ==> m <= x)
      && (m == 0 || exists t :: 0 <= t < tasks && m in Processed(a, tasks, t, cancelled))
    ensures var m := SeqMin(TaskResults(a, tasks, cancelled, 0, MinItem));
      (m == 0 || m in a)
      && (NeverCancelled(cancelled) ==> forall j :: 0 <= j < |a| ==> m <= a[j])
  {
    var results := TaskResults(a, tasks, cancelled, 0, MinItem);
    var m := SeqMin(results);
    var w :| 0 <= w < |results| && results[w] == m;
    MinTaskResult(a, tasks, cancelled, w);
    MinTaskResult(a, tasks, cancelled, 0);
    assert m <= results[0];
    forall t, x | 0 <= t < tasks && x in Processed(a, tasks, t, cancelled)
      ensures m <= x
    {
      MinTaskResult(a, tasks, cancelled, t);
      assert m <= results[t];
    }
    if NeverCancelled(cancelled) {
      forall j | 0 <= j < |a| ensures m <= a[j] {
        var o := Owner(|a|, tasks, j);
        MinTaskResult(a, tasks, cancelled, o);
        assert m <= results[o];
      }
    }
  }

  /**
   * Combining the max tasks: every task starts from 0, so the maximum of
   * their results is at least 0 and is 0 or an item of the array; when the
   * token is never seen it is also at least every item of the array.
   */
  lemma MaxOfTasks(a: seq<int>, tasks: nat, cancelled: (nat, nat) -> bool)
    requires 1 <= tasks
    ensures var m := SeqMax(TaskResults(a, tasks, cancelled, 0, MaxItem));
      m >= 0
      && (forall t, x :: 0 <= t < tasks && x in Processed(a, tasks, t, cancelled) ==> m >= x)
      && (m == 0 || exists t :: 0 <= t < tasks && m in Processed(a, tasks, t, cancelled))
    ensures var m := SeqMax(TaskResults(a, tasks, cancelled, 0, MaxItem));
      (m == 0 || m in a)
      && (NeverCancelled(cancelled) ==> forall j :: 0 <= j < |a| ==> m >= a[j])
  {
    var results := TaskResults(a, tasks, cancelled, 0, MaxItem);
    var m := SeqMax(results);
    var w :| 0 <= w < |results| && results[w] == m;
    MaxTaskResult(a, tasks, cancelled, w);
    MaxTaskResult(a, tasks, cancelled, 0);
    assert m >= results[0];
    forall t, x | 0 <= t < tasks && x in Processed(a, tasks, t, cancelled)
      ensures m >= x
    {
      MaxTaskResult(a, tasks, cancelled, t);
      assert m >= results[t];
    }
    if NeverCancelled(cancelled) {
      forall j | 0 <= j < |a| ensures m >= a[j] {
        var o := Owner(|a|, tasks, j);
        MaxTaskResult(a, tasks, cancelled, o);
        assert m >= results[o];
      }
    }
  }

  /**
   * `MultiTaskMinProcessor.Process`: with no tasks LINQ `Min` throws;
   * otherwise the result is at most 0 and is 0 or an array item, and when the
   * token is never seen it is the minimum of 0 and the whole array.
   */
  method MinProcess(a: array<int>, taskCount: nat, cancelled: (nat, nat) -> bool) returns (r: Result<int>)
    ensures r.Err? <==> taskCount == 0
    ensures r.Err? ==> r.fault == EmptySequence
    ensures r.Ok? ==> r.value <= 0 && (r.value == 0 || r.value in a[..])
    ensures r.Ok? && NeverCancelled(cancelled) ==> forall j :: 0 <= j < a.Length ==> r.value <= a[j]
    ensures r.Ok? ==>
      (forall t, x :: 0 <= t < taskCount && x in Processed(a[..], taskCount, t, cancelled) ==> r.value <= x)
      && (r.value == 0 || exists t :: 0 <= t < taskCount && r.value in Processed(a[..], taskCount, t, cancelled))
  {
    var results := Process(a, taskCount, cancelled, 0, MinItem);
    r := HandleMinResults(results);
    if taskCount >= 1 {
      MinOfTasks(a[..], taskCount, cancelled);
    }
  }

  /**
   * `MultiTaskMaxProcessor.Process`: with no tasks LINQ `Max` throws;
   * otherwise the result is at least 0 and is 0 or an array item, and when
   * the token is never seen it is the maximum of 0 and the whole array.
   */
  method MaxProcess(a: array<int>, taskCount: nat, cancelled: (nat, nat) -> bool) returns (r: Result<int>)
    ensures r.Err? <==> taskCount == 0
    ensures r.Err? ==> r.fault == EmptySequence
    ensures r.Ok? ==> r.value >= 0 && (r.value == 0 || r.value in a[..])
    ensures r.Ok? && NeverCancelled(cancelled) ==> forall j :: 0 <= j < a.Length ==> r.value >= a[j]
    ensures r.Ok? ==>
      (forall t, x :: 0 <= t < taskCount && x in Processed(a[..], taskCount, t, cancelled) ==> r.value >= x)
      && (r.value == 0 || exists t :: 0 <= t < taskCount && r.value in Processed(a[..], taskCount, t, cancelled))
  {
    var results := Process(a, taskCount, cancelled, 0, MaxItem);
    r := HandleMaxResults(results);
    if taskCount >= 1 {
      MaxOfTasks(a[..], taskCount, cancelled);
    }
  }

  // ---------------------------------------------------- character counts

  /**
   * `MultiTaskCharProcessor.ProcessItem`: allocate the dictionary if the
   * accumulator is still null, then count the character.
   */
  function CharItem(t: nat, ch: char, acc: Option<CharMap>): (r: Option<CharMap>)
    ensures r.Some? && r.value == AddCounts(OrEmpty(acc), Histogram([ch]))
  {
    CountOne(OrEmpty(acc), ch);
    CountStep(acc, ch)
  }

  /** Folding the character step is counting the span. */
  lemma {:induction false} FoldChars(t: nat, items: seq<char>, acc: Option<CharMap>)
    ensures FoldItems(CharItem, t, items, acc) == CountSpan(acc, items)
    decreases |items|
  {
    if items != [] {
      FoldChars(t, items[..|items| - 1], acc);
    }
  }

  /**
   * `MultiTaskCharProcessor.HandleResults`: merge every task's dictionary
   * into a new one, key by key. A task that processed no item returned null,
   * and iterating it throws.
   */
  method HandleCharResults(results: seq<Option<CharMap>>) returns (r: Result<CharMap>)
    ensures r.Err? <==> exists t :: 0 <= t < |results| && results[t].None?
    ensures r.Err? ==> r.fault == NullReference
    ensures r.Ok? ==> r.value == Merged(Present(results))
  {
    var merged: CharMap := map[];
    for t := 0 to |results|
      invariant forall u :: 0 <= u < t ==> results[u].Some?
      invariant merged == Merged(Present(results[..t]))
    {
      if results[t].None? {
        return Err(NullReference);
      }
      MergedPresentStep(results, t);
      merged := MergeInto(merged, results[t].value);
    }
    assert results[..|results|] == results;
    r := Ok(merged);
  }

  /**
   * Each character task returns null when it processed no character and
   * otherwise the histogram of the characters it processed.
   */
  lemma CharTaskResults(a: seq<char>, tasks: nat, cancelled: (nat, nat) -> bool, t: nat)
    requires t < tasks
    ensures var p := Processed(a, tasks, t, cancelled);
      TaskResults(a, tasks, cancelled, None, CharItem)[t] == if p == [] then None else Some(Histogram(p))
  {
    var p := Processed(a, tasks, t, cancelled);
    FoldChars(t, p, None);
    CountFresh(p);
  }

  /** The histograms of what each task processed, in task order. */
  function ProcessedHistograms(a: seq<char>, tasks: nat, cancelled: (nat, nat) -> bool): (r: seq<CharMap>)
    ensures |r| == tasks
  {
    seq(tasks, t requires 0 <= t < tasks => Histogram(Processed(a, tasks, t, cancelled)))
  }

  /**
   * `MultiTaskCharProcessor.Process`: the merge throws exactly when some
   * task processed no character (its dictionary is still null); otherwise
   * the result merges the histograms of what the tasks processed. When the
   * token is never seen: with no tasks, an empty dictionary; with more tasks
   * than characters the merge throws; otherwise each character maps to the
   * number of its occurrences in the whole array and only characters
   * present are keys.
   */
  method CharProcess(a: array<char>, taskCount: nat, cancelled: (nat, nat) -> bool) returns (r: Result<CharMap>)
    ensures r.Err? <==> exists t :: 0 <= t < taskCount && Processed(a[..], taskCount, t, cancelled) == []
    ensures r.Err? ==> r.fault == NullReference
    ensures r.Ok? ==> r.value == Merged(ProcessedHistograms(a[..], taskCount, cancelled))
    ensures taskCount == 0 ==> r == Ok(map[])
    ensures NeverCancelled(cancelled) && taskCount > a.Length ==> r == Err(NullReference)
    ensures NeverCancelled(cancelled) && 1 <= taskCount <= a.Length ==> r == Ok(Histogram(a[..]))
  {
    var results := Process(a, taskCount, cancelled, None, CharItem);
    r := HandleCharResults(results);
    ghost var s := a[..];
    CharResultsPresent(s, taskCount, cancelled);
    if taskCount == 0 {
      assert Present(results) == [];
    } else if NeverCancelled(cancelled) {
      if taskCount <= |s| {
        UncancelledHistograms(s, taskCount, cancelled);
        SliceHistogramsTotal(s, taskCount);
      } else {
        OversubscribedTask(s, taskCount, cancelled);
      }
    }
  }

  /**
   * The task results hold a null exactly when some task processed nothing,
   * and when none is null they are the histograms of what each task processed.
   */
  lemma CharResultsPresent(a: seq<char>, tasks: nat, cancelled: (nat, nat) -> bool)
    ensures var rs := TaskResults(a, tasks, cancelled, None, CharItem);
      ((exists t :: 0 <= t < |rs| && rs[t].None?)
        <==> exists t :: 0 <= t < tasks && Processed(a, tasks, t, cancelled) == [])
      && ((forall t :: 0 <= t < |rs| ==> rs[t].Some?) ==> Present(rs) == ProcessedHistograms(a, tasks, cancelled))
  {
    var rs := TaskResults(a, tasks, cancelled, None, CharItem);
    forall t | 0 <= t < tasks
      ensures rs[t] == if Processed(a, tasks, t, cancelled) == [] then None else Some(ProcessedHistograms(a, tasks, cancelled)[t])
    {
      CharTaskResults(a, tasks, cancelled, t);
    }
  }

  /** With more tasks than characters, task 0's slice is empty, so it processes nothing whatever the token does. */
  lemma OversubscribedTask(a: seq<char>, tasks: nat, cancelled: (nat, nat) -> bool)
    requires tasks > |a|
    ensures Processed(a, tasks, 0, cancelled) == []
  {
    if tasks > 1 {
      OversubscribedSlices(|a|, tasks);
    }
  }

  /** Uncancelled, with no more tasks than characters, every task processes its whole slice. */
  lemma UncancelledHistograms(a: seq<char>, tasks: nat, cancelled: (nat, nat) -> bool)
    requires 1 <= tasks <= |a| && NeverCancelled(cancelled)
    ensures (forall t :: 0 <= t < tasks ==> Processed(a, tasks, t, cancelled) != [])
    ensures ProcessedHistograms(a, tasks, cancelled) == SliceHistograms(a, tasks)
  {
    AllSlicesNonEmpty(|a|, tasks);
  }
}
