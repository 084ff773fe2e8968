# Partitioned map/reduce processors, modelled in Dafny

This project models the static partitioned map/reduce core of
`MultiThreading_Lesson`. It covers two families of processors.

- The task-based family in `Program.cs`. `MultiTaskProcessorBase.Process`
  cuts an array into one slice per task. Each task walks its slice left to
  right and checks a cancellation token before every item. The
  non-reducing form (`MultiTaskRandomProcessor`) overwrites every item
  with a generated value. The reducing form folds an accumulator that
  starts at `default(TResult)`, and `HandleResults` combines the tasks'
  results. The combines are sum (`long`), min and max (`int`, seeded
  with 0) and character frequency (`Dictionary<char, int>`, null until
  the first character).
- The thread-based family in `Threads/`. `MultiThreadingProcessor.Process`
  starts one thread per slice and joins them all. Each thread calls
  `ProcessValue(index, i, span)` for every position of its slice.
  `SumSearch` adds items into a per-thread `long[]` slot. `FreqChar`
  counts characters into a per-thread dictionary. Each `Process` then
  combines the per-thread slots into `Result`.

The workers run one after another in the model, in index order. Each
worker reads only its own slice and writes only its own slice or its own
result slot, so this order gives the same final state as any
interleaving.

Modules, one per component:

- `Results` (`results.dfy`): `Result`/`Option`, and the two exceptions
  the code can raise.
- `Partition` (`partition.dfy`): the slice arithmetic shared by both
  families.
- `Aggregates` (`aggregates.dfy`): reference sum, per-slice sums, and
  minimum/maximum.
- `CharCounts` (`char_counts.dfy`): the counting step, the key-wise merge
  and the histogram (multiset) reference.
- `TaskProcessor` (`task_processor.dfy`): the reducing task loop and
  `Process`, with the cancellation token as an oracle.
- `RandomProcessor` (`random_processor.dfy`): the non-reducing task loop
  and the random fill.
- `TaskReducers` (`task_reducers.dfy`): the sum, min, max and char
  processors.
- `ThreadsProcessor` (`threads_processor.dfy`): the `ProcessValue` call
  schedule of the thread-based processor.
- `SumSearchThreads` (`sum_search.dfy`) and `FreqCharThreads`
  (`freq_char.dfy`): the two thread-based processors, as classes over
  arrays.
- `Scenarios` (`scenarios.dfy`): small worked examples.

Modelling choices:

- The cancellation token is a function `cancelled(t, i)`. It says what
  task `t` sees when it checks the token before item `i` of its slice.
  The loop stops at the first such check that sees it set. It is
  `StopIndex`.
- A `null` dictionary is `None`. An exception is an `Err(fault)` result,
  or a returned `thrown` value for a method that changes state.
- `long` is `int`. Summing `int` items over one array that fits in memory
  cannot overflow a `long`. The `int` counts of a dictionary are `int`
  too. One run counts at most the array length for a character, and that
  fits in 32 bits. Repeated runs are another matter (see "Left out").
- `MultiThreadingProcessor<T>` is an abstract base class whose
  `ProcessValue` is abstract. Its `Process` and `ThreadProc` therefore
  appear once in each of the two subclasses, as `RunThreads` and
  `ThreadProc`. Both are tied to the one shared schedule,
  `ThreadsProcessor.Schedule`. A ghost log `calls` records every
  `ProcessValue` call.
- More workers than items: the code does not reject this. With
  `count = L / n = 0`, the first `n - 1` slices are empty and the last
  slice is the whole array. It does not split the items into `L`
  non-empty slices plus `n - L` empty ones. The model follows the code
  (`Partition.OversubscribedSlices`, `Scenarios.ThreeItemsFiveWorkers`).
  For the character processors this means the merge meets a null
  dictionary and throws.

## Model

| member | source | states |
|---|---|---|
| `Partition.Slice` | MultiThreading_Lesson/Program.cs:32-38 | Slice `index` starts at `index * (L / n)`. Non-last slices hold `L / n` items. The last slice ends at `L`. Every slice lies within the array. |
| `Partition.SlicesAdjacent` | MultiThreading_Lesson/Threads/MultiThreadingProcessor.cs:30-34 | Each slice ends where the next one starts. |
| `Partition.SlicesDisjoint` | MultiThreading_Lesson/Threads/MultiThreadingProcessor.cs:28-34 | Slices of different workers are ordered and share no index. |
| `Partition.OwnerUnique` | MultiThreading_Lesson/Program.cs:30-40 | An index lies in the slice of exactly one worker. |
| `Partition.SlicesCover` | MultiThreading_Lesson/Program.cs:30-40 | For `n >= 1`, an index lies in some slice if and only if it is in `[0, L)`. The first slice starts at 0 and the last ends at `L`. |
| `Partition.SliceSizes` | MultiThreading_Lesson/Threads/MultiThreadingProcessor.cs:30-34 | Non-last slices hold `L / n` items. The last holds `L - (n-1)*(L/n) = L/n + L%n`, which is at least `L / n`. |
| `Partition.OversubscribedSlices` | MultiThreading_Lesson/Program.cs:34-37 | When `n > L`, the first `n - 1` slices are empty and the last is `[0, L)`. |
| `Partition.AllSlicesNonEmpty` | MultiThreading_Lesson/Threads/MultiThreadingProcessor.cs:30-34 | For `n >= 1`, every slice is non-empty if and only if `n <= L`. |
| `TaskProcessor.StopIndex` | MultiThreading_Lesson/Program.cs:93 | The loop runs exactly up to the first check that sees the token set, or to the end of the slice. It runs to the end when the token is never set. |
| `TaskProcessor.ProcessPartArray` | MultiThreading_Lesson/Program.cs:89-96 | The reducing loop returns the left fold of `ProcessItem`, seeded with `default`, over exactly the slice prefix before the token is seen. |
| `TaskProcessor.Processed` | MultiThreading_Lesson/Program.cs:89-96 | The items a task gets through are a prefix of its slice. Uncancelled, they are the whole slice. |
| `TaskProcessor.TaskResultIsLocal` | MultiThreading_Lesson/Program.cs:89-96 | A task's result depends only on its own slice and on what that task sees of the token. |
| `TaskProcessor.Process` | MultiThreading_Lesson/Program.cs:28-44 | `Process` produces exactly one result per task, in task order. Result `t` is task `t`'s fold over its own slice. |
| `RandomProcessor.ProcessItem` | MultiThreading_Lesson/Program.cs:124-127 | Writes the owning task's generated value into one slot of its slice. No other slot changes. |
| `RandomProcessor.ProcessPartArray` | MultiThreading_Lesson/Program.cs:62-67 | The slots of the slice before the token is seen get the task's values, in order. Every other slot of the array keeps its old value. |
| `RandomProcessor.Process` | MultiThreading_Lesson/Program.cs:28-44 | Each slot ends up with its owner's generated value if the owner got that far, and keeps its old value otherwise. Written indices strictly increase, so none is written twice. Uncancelled with `n >= 1`, they are exactly `0 .. L-1`. |
| `RandomProcessor.FilledEverywhere` | MultiThreading_Lesson/Program.cs:62-67 | Uncancelled with `n >= 1`, every slot holds the value its owning task generated for it. |
| `Aggregates.SumConcat` | MultiThreading_Lesson/Program.cs:136-139 | The sum over a concatenation is the sum of the two sums. |
| `Aggregates.SliceSumsTotal` | MultiThreading_Lesson/Threads/SumSearch.cs:15-18 | For `n >= 1`, the per-slice sums add up to the sum of the whole array, whatever `n` is. |
| `Aggregates.SumAddPointwise` | MultiThreading_Lesson/Threads/SumSearch.cs:15-18 | Summing slots that each grew by some amount gives the old total plus the total growth. |
| `Aggregates.SeqMin` | MultiThreading_Lesson/Program.cs:154-157 | LINQ `Min` over a non-empty sequence returns an element that is at most every element. |
| `Aggregates.SeqMax` | MultiThreading_Lesson/Program.cs:172-175 | LINQ `Max` over a non-empty sequence returns an element that is at least every element. |
| `Aggregates.Sum` | MultiThreading_Lesson/Threads/SumSearch.cs:18 | The reference sum (LINQ `Sum`). Non-negative items give a non-negative sum. |
| `Aggregates.SumFromFront` | MultiThreading_Lesson/Program.cs:138 | Adding up from the front, as LINQ `Sum` does, gives the same value as the definition, which takes off the last item. |
| `TaskReducers.SumItem` | MultiThreading_Lesson/Program.cs:141-144 | If the running sum is the sum of the items seen so far, one step makes it the sum of those items followed by the current one. |
| `TaskReducers.FoldSum` | MultiThreading_Lesson/Program.cs:141-144 | Folding `acc + item` over items gives the seed plus their sum. |
| `TaskReducers.SumTaskResults` | MultiThreading_Lesson/Program.cs:89-96 | Each sum task returns the sum of the items it got through. Uncancelled, that is the sum of its slice. |
| `TaskReducers.SumProcess` | MultiThreading_Lesson/Program.cs:136-139 | The result is the sum of every processed item. Uncancelled with `n >= 1`, it is the sum of the whole array, whatever `n` is. With no tasks it is 0. |
| `TaskReducers.MinItem` | MultiThreading_Lesson/Program.cs:159-162 | The step returns the accumulator or the item, whichever is at most both. |
| `TaskReducers.MaxItem` | MultiThreading_Lesson/Program.cs:177-180 | The step returns the accumulator or the item, whichever is at least both. |
| `TaskReducers.FoldMin` | MultiThreading_Lesson/Program.cs:159-162 | The fold is the minimum of the seed and the items. |
| `TaskReducers.FoldMax` | MultiThreading_Lesson/Program.cs:177-180 | The fold is the maximum of the seed and the items. |
| `TaskReducers.HandleMinResults` | MultiThreading_Lesson/Program.cs:154-157 | It fails with an empty-sequence error if and only if there are no results. Otherwise it returns the least result. |
| `TaskReducers.HandleMaxResults` | MultiThreading_Lesson/Program.cs:172-175 | It fails with an empty-sequence error if and only if there are no results. Otherwise it returns the greatest result. |
| `TaskReducers.MinTaskResult` | MultiThreading_Lesson/Program.cs:91-95 | A min task seeded with 0 returns `min(0, items it processed)`. The value is at most 0 and at most every processed item, and it is 0 or one of those items. Uncancelled, it is at most every item of its slice. |
| `TaskReducers.MaxTaskResult` | MultiThreading_Lesson/Program.cs:91-95 | A max task seeded with 0 returns `max(0, items it processed)`. The value is at least 0 and at least every processed item, and it is 0 or one of those items. Uncancelled, it is at least every item of its slice. |
| `TaskReducers.MinOfTasks` | MultiThreading_Lesson/Program.cs:154-157 | The combined minimum is `min(0, items processed by any task)`. The value is at most 0 and at most every processed item, and it is 0 or one of those items. Uncancelled, it is at most every array item, so it is `min(0, all items)`. |
| `TaskReducers.MaxOfTasks` | MultiThreading_Lesson/Program.cs:172-175 | The combined maximum is `max(0, items processed by any task)`. The value is at least 0 and at least every processed item, and it is 0 or one of those items. Uncancelled, it is at least every array item, so it is `max(0, all items)`. |
| `TaskReducers.MinProcess` | MultiThreading_Lesson/Program.cs:147-163 | It throws if and only if there are no tasks. Otherwise the result is `min(0, processed items)`, which is `min(0, all items)` when uncancelled. |
| `TaskReducers.MaxProcess` | MultiThreading_Lesson/Program.cs:165-181 | It throws if and only if there are no tasks. Otherwise the result is `max(0, processed items)`, which is `max(0, all items)` when uncancelled. |
| `TaskReducers.CharItem` | MultiThreading_Lesson/Program.cs:211-227 | One step always leaves a dictionary. It holds the old counts (none for a null accumulator) plus the histogram of the one current char. |
| `TaskReducers.FoldChars` | MultiThreading_Lesson/Program.cs:211-227 | Folding the char step over a span is counting that span into the accumulator. |
| `TaskReducers.CharTaskResults` | MultiThreading_Lesson/Program.cs:89-96 | A char task returns null if it processed nothing. Otherwise it returns the histogram of what it processed. |
| `TaskReducers.CharResultsPresent` | MultiThreading_Lesson/Program.cs:189-209 | A task result is null if and only if that task processed nothing. |
| `TaskReducers.HandleCharResults` | MultiThreading_Lesson/Program.cs:189-209 | It throws a null reference if and only if some task result is null. Otherwise it returns the key-wise merge of all the dictionaries. |
| `TaskReducers.OversubscribedTask` | MultiThreading_Lesson/Program.cs:34-37 | With more tasks than characters, task 0 processes nothing. |
| `TaskReducers.UncancelledHistograms` | MultiThreading_Lesson/Program.cs:30-40 | Uncancelled with `1 <= n <= L`, every task processes its whole, non-empty slice. |
| `TaskReducers.CharProcess` | MultiThreading_Lesson/Program.cs:183-228 | It fails if and only if some task processed nothing. Otherwise it merges the histograms of what each task processed. Uncancelled with `1 <= n <= L`, each char maps to its number of occurrences in the whole array, and only the chars present are keys. With `n > L` it throws. With no tasks the result is empty. |
| `CharCounts.Inc` | MultiThreading_Lesson/Program.cs:216-224 | The count of the current char is incremented, or inserted as 1. Every other key is unchanged. |
| `CharCounts.CountStep` | MultiThreading_Lesson/Threads/FreqChar.cs:38-52 | A null dictionary is allocated first. Then the current char is counted, and no other key changes. |
| `CharCounts.AddCounts` | MultiThreading_Lesson/Program.cs:195-205 | Merging one dictionary adds its counts key-wise. The key set becomes the union. |
| `CharCounts.Histogram` | MultiThreading_Lesson/Threads/FreqChar.cs:15-33 | The reference result: the keys are exactly the chars present, and each value is that char's multiplicity. |
| `CharCounts.CountSpanHistogram` | MultiThreading_Lesson/Threads/FreqChar.cs:36-53 | Counting a span leaves a dictionary if and only if one existed or the span is non-empty. It holds the old counts plus the histogram of the span. |
| `CharCounts.CountFresh` | MultiThreading_Lesson/Threads/FreqChar.cs:39-43 | Counting into a null dictionary leaves it null for an empty span. Otherwise it yields the span's histogram. |
| `CharCounts.CountAgain` | MultiThreading_Lesson/Threads/FreqChar.cs:45-52 | Counting a span again into its own histogram doubles every count. |
| `CharCounts.HistogramConcat` | MultiThreading_Lesson/Program.cs:193-206 | The histogram of a concatenation is the key-wise sum of the two histograms. |
| `CharCounts.MergedCounts` | MultiThreading_Lesson/Threads/FreqChar.cs:20-33 | In a merge of dictionaries, each key's count is the sum of its counts. The key set is the union. |
| `CharCounts.SliceHistogramsTotal` | MultiThreading_Lesson/Threads/FreqChar.cs:15-33 | For `n >= 1`, merging the per-slice histograms gives the histogram of the whole array. |
| `CharCounts.TotalHistogram` | MultiThreading_Lesson/Threads/FreqChar.cs:15-33 | The counts of a histogram add up to the length of the sequence. |
| `CharCounts.MergeInto` | MultiThreading_Lesson/Threads/FreqChar.cs:22-32 | The inner merge loop, taking entries in any order, yields the key-wise sum. |
| `CharCounts.MergedDoubled` | MultiThreading_Lesson/Threads/FreqChar.cs:20-33 | Merging doubled dictionaries doubles the merge. |
| `CharCounts.FirstMissing` | MultiThreading_Lesson/Threads/FreqChar.cs:20-22 | The merge gets through the leading non-null dictionaries and stops at the first null one. |
| `ThreadsProcessor.ThreadCalls` | MultiThreading_Lesson/Threads/MultiThreadingProcessor.cs:36-39 | Thread `index` makes one `ProcessValue(index, i)` call for each position `i` of its slice, in increasing order. |
| `ThreadsProcessor.SchedulePrefix` | MultiThreading_Lesson/Threads/MultiThreadingProcessor.cs:16-24 | The calls of the first `k` threads cover the array up to the end of slice `k - 1`. The `j`-th call is for array position `j`. |
| `ThreadsProcessor.ScheduleCoversOnce` | MultiThreading_Lesson/Threads/MultiThreadingProcessor.cs:32-39 | A whole run makes exactly `L` calls. Each array element is passed exactly once, by its owning thread, at its offset within that thread's slice. |
| `SumSearchThreads.SumSearch.constructor` | MultiThreading_Lesson/Threads/SumSearch.cs:9-13 | A new instance has one zeroed slot per thread. |
| `SumSearchThreads.SumSearch.ProcessValue` | MultiThreading_Lesson/Threads/SumSearch.cs:21-24 | Adds the item to this thread's slot only. Every other slot is unchanged. |
| `SumSearchThreads.SumSearch.ThreadProc` | MultiThreading_Lesson/Threads/MultiThreadingProcessor.cs:26-40 | The thread's slot grows by the sum of its slice. Its calls are logged in order. |
| `SumSearchThreads.SumSearch.RunThreads` | MultiThreading_Lesson/Threads/MultiThreadingProcessor.cs:14-24 | All threads run. Each slot grows by its slice sum, and the call log grows by the whole schedule. |
| `SumSearchThreads.SumSearch.Process` | MultiThreading_Lesson/Threads/SumSearch.cs:15-19 | `Result` is the sum of the slots. That equals the old slot total plus the array sum, for `n >= 1`. |
| `SumSearchThreads.SumZeros` | MultiThreading_Lesson/Threads/SumSearch.cs:12 | Freshly zeroed slots sum to 0. |
| `SumSearchThreads.ProcessTwice` | MultiThreading_Lesson/Threads/SumSearch.cs:15-18 | On a fresh instance, the first `Result` is the array sum whatever `n >= 1` is. The second is twice that, because `_results` is never reset. |
| `FreqCharThreads.FreqChar.constructor` | MultiThreading_Lesson/Threads/FreqChar.cs:9-13 | A new instance has one null dictionary per thread and no `Result`. |
| `FreqCharThreads.FreqChar.ProcessValue` | MultiThreading_Lesson/Threads/FreqChar.cs:36-53 | Allocates this thread's dictionary if it is null, then counts the char. No other thread's slot changes. |
| `FreqCharThreads.FreqChar.ThreadProc` | MultiThreading_Lesson/Threads/MultiThreadingProcessor.cs:26-40 | The thread counts its whole slice into its own slot, in order. |
| `FreqCharThreads.FreqChar.RunThreads` | MultiThreading_Lesson/Threads/MultiThreadingProcessor.cs:14-24 | All threads run. Each slot has counted its own slice. |
| `FreqCharThreads.FreqChar.MergeResults` | MultiThreading_Lesson/Threads/FreqChar.cs:18-33 | It throws if and only if some slot is null. `Result` is a fresh merge of the slots before the first null one. |
| `FreqCharThreads.FreqChar.Process` | MultiThreading_Lesson/Threads/FreqChar.cs:15-34 | The threads count their slices on top of what the slots held, then the merge runs. |
| `FreqCharThreads.FirstRun` | MultiThreading_Lesson/Threads/FreqChar.cs:36-53 | On a fresh instance with `1 <= n <= L`, every slot holds the histogram of its slice. |
| `FreqCharThreads.SecondRun` | MultiThreading_Lesson/Threads/FreqChar.cs:39-43 | A second run on top of the first doubles every slot's counts. |
| `FreqCharThreads.TwoRuns` | MultiThreading_Lesson/Threads/FreqChar.cs:15-33 | With `1 <= n <= L`, neither merge throws. The first merge gives the whole-array histogram and the second gives it doubled. |
| `FreqCharThreads.OversubscribedRun` | MultiThreading_Lesson/Threads/FreqChar.cs:39-43 | With more threads than chars, slot 0 stays null. |
| `FreqCharThreads.ProcessTwice` | MultiThreading_Lesson/Threads/FreqChar.cs:15-34 | On a fresh instance, the first run throws if and only if `n > L`. With `1 <= n <= L`, the first `Result` is the occurrence count of each char, with every value at least 1 and the values summing to `L`. The second `Result` is doubled. |
| `Scenarios.TenItemsFourWorkers` | MultiThreading_Lesson/Program.cs:32-38 | 10 items among 4 workers give slices `[0,2) [2,4) [4,6) [6,10)`. |
| `Scenarios.ThreeItemsFiveWorkers` | MultiThreading_Lesson/Program.cs:34-37 | 3 items among 5 workers give four empty slices, and the last slice holds the whole array. |
| `Scenarios.SumOneToTenThreeWorkers` | MultiThreading_Lesson/Program.cs:136-144 | Summing 1..10 with 3 workers gives slice sums 6, 15 and 34, and 55 in total. |
| `Scenarios.CountAabbbcTwoWorkers` | MultiThreading_Lesson/Program.cs:189-227 | Counting `"aabbbc"` with 2 workers gives `{a:2, b:1}` and `{b:2, c:1}`, which merge to `{a:2, b:3, c:1}`. |

## Left out

- Threads, tasks and their plumbing are not modelled. This covers `Thread.Start`/`Join`, `TaskFactory` with `LongRunning`, `Task.WhenAll` and background threads. The workers run sequentially in index order. This is sound because their slices and result slots are disjoint.
- Real cancellation-token semantics are not modelled. The token is only the oracle `cancelled(t, i)`, and it is not required to be monotone. A real token stays set once it is set. Each reducing `...Process` method returns the combined value, not a cancelled task.
- `TaskReducers.SumProcess`, `TaskReducers.MinProcess`, `TaskReducers.MaxProcess`, `TaskReducers.CharProcess`: the continuation is started with the same token (`ContinueWith(..., cancellationToken)`, `Program.cs` line 84). So in any run where some task sees the token, the token is still set when the continuation is due. The caller then receives a cancelled task, not a value. The clauses of these methods about partially processed slices therefore describe values the combine step would compute, which the caller never receives. Only the uncancelled clauses describe a value the caller gets. The continuation is also created without `TaskContinuationOptions.LazyCancellation`. So once the token is set, the task the caller awaits can end cancelled while worker tasks are still running, and awaiting it does not wait for every worker.
- Random generation is not modelled. This covers `System.Random`, the seeding of the per-task generators, `GenRandomArray.cs` and `GenRandomArray1.cs`. The value task `t` generates for item `i` of its slice is the parameter `randomize(t, i)`.
- `SingleTaskScheduler.cs` is not part of this model. It is a concurrency-only custom scheduler.
- The `Program` class is not modelled: console progress animation, printing, timing, `Main` and the demo drivers. It is I/O and demo driving only.
- `FreqCharThreads.SecondRun`, `FreqCharThreads.TwoRuns`, `FreqCharThreads.ProcessTwice`: the dictionary counts are 32-bit `int` and the increments (`value + 1`, `value + pair.Value`) are unchecked. These members give the exact doubled counts. In the source, a count above 2^31 - 1 wraps to a negative value, for example 2^30 copies of one character processed twice. One run cannot wrap, because a count never exceeds the array length.
- `CharCounts.Inc`, `CharCounts.AddCounts`, `TaskReducers.CharItem`: counts are unbounded here. The source's 32-bit counts could wrap only if counts accumulated beyond one array, which the task-based processor never does.
- `SumSearchThreads.SumSearch.Process`, `SumSearchThreads.ProcessTwice`: `_results` is never reset, so the `long` slots keep growing over repeated `Process` calls. The model does not bound them. In the source, the per-item `+=` wraps unchecked after enough runs over an extreme array, and the checked LINQ `Sum()` throws `OverflowException`.
- Negative worker counts are not modelled. They are `nat` here, while C# throws when allocating a negative-length array.
- Exceptions thrown by a per-item operation are not modelled. None of the modelled operations can throw on a valid index.
- The task-based `HandleResults` can read `t.Result` of a cancelled task. That case is not modelled, because it follows only from the cancelled-continuation path above.
