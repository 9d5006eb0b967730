# parallel — a verified model of the parallel-for runtime

The library runs a callback over an index range `[start, start + size)`.
It can also run the callback over the elements of an array. The range is
split into one contiguous slice per core, each slice runs on a worker
thread, and a `false` answer from the callback stops all slices early.

The repository holds two revisions, and both are modelled here:

- **parallel/**: a static `parallel` class with `init`, `clean`,
  `create_job`, `_for` and `_foreach`. Workers with job queues and a job
  parent hold the shared force-quit flag.
- **include/pl + src/**: `pl_job`, `pl_task` and `pl_worker`, with
  `create_job`, `_for`, `_foreach`, `async_for` and `async_foreach`. Two
  container helpers, `vector_ptr` and `coin`, are modelled too.

Threads are sequential in this model. Each blocking wait (`pl_job::wait`,
and the wait at the end of `parallel::create_job`) runs the pending work
worker by worker, in index order, which is one of the schedules the real
threads allow. The callback is a function `int -> bool` or `nat -> bool`. In parallel/,
a FOR job hands it the index narrowed to a 32-bit `int`.
The indices it is called back at are returned as a trace, `visited`.
The data pointer of parallel/ is a `Memory`: the array's elements, plus a
function giving what lies at each index past them. A FOREACH job that
reaches beyond the array reads from that function.

Both revisions are measured against one reference: a single loop that
calls back `start, start + 1, …` and stops after the first `false` answer.
The module `Scan` defines this loop (`ScanLength`, `Range`, `Quits`).
`Scan` also defines running a list of chunks in order under a shared stop
flag (`RunTrace`, `SeqTrace`, `SeqQuit`) and chunks that tile a range
(`Tiles`).

The central theorem is `SeqTraceOfTiles`. Chunks that tile the range and
run in order call back exactly what the single loop would. `Planner`
proves that both planners' chunks tile the range. For the parallel/
planner this holds unless a job starts past the end of the range. The
entry points then carry the theorem to their callback traces.

Module layout:

- `scan.dfy`: the reference loop and the chunked runs.
- `cores.dfy`: the core-count policies.
- `planner.dfy`: both chunk planners.
- `parallel_worker.dfy`: jobs, the job parent and workers of parallel/.
- `parallel_runtime.dfy`: the `parallel` class.
- `pl_task.dfy`: `pl_job`, `pl_task` and `pl_worker`.
- `pl_parallel.dfy`: the include/pl entry points.
- `vector_ptr.dfy`: `vector_ptr`.
- `coin.dfy`: `coin`.

## Model

| member | source | states |
|---|---|---|
| Scan.ScanStopsAtFirstFalse | include/pl/task.hpp:100-104 | The loop calls back at most `hi - lo` indices, and every one before the last answers true. It quits exactly when some index of the range answers false. In that case the last index called back is the first false one; otherwise it calls back the whole range. |
| Scan.ScanSplit | include/pl/parallel.hpp:43-53 | Scanning `[lo, hi)` is scanning `[lo, mid)` and then `[mid, hi)` only if the first part did not quit. The whole quits iff either part does. |
| Scan.ScanStopsAt | include/pl/task.hpp:100-104 | When index i is the first false answer, the loop quits after exactly the indices `lo..i`. |
| Scan.ScanCompletes | include/pl/task.hpp:100-104 | When every index answers true, the loop does not quit and calls back the whole range. |
| Scan.ScanExit | parallel/worker.hpp:108-113 | However the job loop exits (range exhausted, or force-quit seen after a false answer), its calls and its raised flag are those of the reference loop over the job's chunk. |
| Scan.RangeMembers | include/pl/parallel.hpp:65-72 | A completed run holds each index of `[lo, hi)` once, in strictly ascending order. |
| Scan.SeqSnoc | src/task.cpp:31-36 | Running one more chunk after a list appends that chunk's calls, started with the stop flag the list left. |
| Scan.SeqQuitSnoc | src/task.cpp:11-14 | The stop flag after one more chunk is up iff it was already up or that chunk raised it. |
| Scan.SeqPrefixStep | src/task.cpp:31-36 | The calls and flag after the first k + 1 chunks extend those after the first k by chunk k. |
| Scan.SeqAfterQuit | include/pl/task.hpp:101-103 | Once the stop flag is up, no later chunk calls back anything, and the flag stays up. |
| Scan.TilesWithin | include/pl/task.hpp:107-108 | Every non-empty chunk of a tiling lies inside the tiled range, so FOREACH reads stay in the data. |
| Scan.SeqQuitOfTiles | src/task.cpp:11-14 | Over a tiling of `[lo, hi)`, the chunks raise the stop flag iff some index of the range answers false. |
| Scan.SeqTraceOfTiles | include/pl/parallel.hpp:43-53 | Chunks that tile `[lo, hi)` and run in order call back exactly what one loop over `[lo, hi)` does, stopping after the first false answer. |
| Scan.CompleteWithoutCancellation | include/pl/parallel.hpp:58-72 | With no false answer, the chunks of a tiling call back every index of the range exactly once, in ascending order, and never raise the flag. |
| Cores.ResolvePl | include/pl/parallel.hpp:23-39 | Every policy but ALL_MINUS_ONE resolves to a count, which never exceeds `max(physical, 1)`. ALL_MINUS_ONE has no defined value. |
| Cores.PlResolution | include/pl/parallel.hpp:23-39 | SINGLE resolves to 1 core and ALL to the hardware count. ALL_MINUS_ONE has no defined value. HALF and QUARTER resolve to at most 1, and to 0 below 2 and below 4 hardware threads respectively. |
| Cores.ResolvePlIntended | include/pl/parallel.hpp:27-32 | HALF and QUARTER give at least 1 core, and never more than the hardware count when there is one. HALF is the largest share with twice it at most `max(physical, 2)`; QUARTER likewise with four times. The other policies resolve as written. |
| Cores.PlIntendedShares | include/pl/parallel.hpp:27-32 | The intended QUARTER share never exceeds the intended HALF share. |
| Cores.PlHalfUsesMin | include/pl/parallel.hpp:28 | On 8 hardware threads HALF gives 1 core instead of 4. On 1 hardware thread it gives 0 instead of 1, and QUARTER on 3 gives 0 instead of 1. |
| Cores.ResolveParallel | parallel/parallel.cpp:25-45 | ALL_MINUS_ONE is one less than the hardware count, or the -1 sentinel on 0. HALF and QUARTER are at least 2, and at most the hardware count once it is 2 or more. |
| Cores.ParallelResolution | parallel/parallel.cpp:25-45 | ALL is the hardware count; ALL_MINUS_ONE is one less, wrapping to 2^32 - 1 on 0. HALF and QUARTER are `max(physical / 2, 2)` and `max(physical / 4, 2)`. CUSTOM is the given count. |
| Cores.ResolvesToSentinel | parallel/parallel.cpp:18-46 | The stored count equals the "not initialised" value -1 exactly in three cases: ALL on 2^32 - 1 threads, ALL_MINUS_ONE on 0, or CUSTOM with the default argument. |
| Planner.CeilDiv | include/pl/parallel.hpp:41 | The quotient is the least q with `q * b >= a`, as a ceiling is. |
| Planner.PlTasksFromCount | include/pl/parallel.hpp:45-53 | From turn i, the loop pushes between 1 and `cores - i` tasks. |
| Planner.PlTasksFromStarts | include/pl/parallel.hpp:46-47 | The k-th task pushed from turn i starts at `start + given + k * per`. |
| Planner.PlTasksFromLengths | include/pl/parallel.hpp:46 | Every task but the last has `per` indices, and the last has what is left. |
| Planner.PlTasksFromTiles | include/pl/parallel.hpp:43-53 | The tasks from turn i tile the rest of the range. |
| Planner.PlPlanShape | include/pl/parallel.hpp:41-53 | For at least one core: 1 to `cores` tasks, task k at `start + k * ceil(size / cores)`, all full but the last, together tiling `[start, start + size)`. For a non-empty range every task is non-empty, because the loop stops once the range is given out. |
| Planner.PlTasksFromNonEmpty | include/pl/parallel.hpp:46-52 | While part of the range is left, every task pushed is non-empty: the loop breaks as soon as `tasks_given` reaches the size. |
| Planner.PlTasksFromWithin | include/pl/parallel.hpp:45-53 | Every task pushed from turn i on starts at or after `start + given` and ends by `start + size`. |
| Planner.PlPlanTiles | include/pl/parallel.hpp:41-53 | For at least one core, the tasks tile the range. |
| Planner.PlPlanEmptyRange | include/pl/parallel.hpp:43-52 | An empty range still gets one task, of length 0. |
| Planner.PlPlanNoCores | include/pl/parallel.hpp:45 | With 0 cores there is no task, so a non-empty range is not covered. |
| Planner.ParLengthWraps | parallel/parallel.hpp:46 | The as-written `size_t` length is `per` while a full slice is left, the rest of the range while less is left, and `size + 2^64 - given` once `given` is past the size. |
| Planner.ParLength | parallel/parallel.hpp:46 | The clipped length is never more than `per`. It stays within the range or is 0, and a job with a full slice left gets all `per`. |
| Planner.ParPlanAsWritten | parallel/parallel.hpp:38-52 | One job per thread, whatever the size. |
| Planner.ParPlanSuffixTiles | parallel/parallel.hpp:45-52 | With lengths clipped at zero, the jobs from i on tile the rest of the range. |
| Planner.ParPlanTiles | parallel/parallel.hpp:38-52 | With lengths clipped at zero, job i starts at `start + i * per` and the jobs tile `[start, start + size)`. |
| Planner.ParPlanAgrees | parallel/parallel.hpp:46 | As-written and clipped plans are equal when `(threads - 1) * per <= size`, i.e. when no job starts past the end. |
| Planner.ParPlanUnderflow | parallel/parallel.hpp:46 | One index on three threads: job 2 gets length 2^64 - 1 as written, 0 clipped. |
| Planner.ParPlanUnderflowRunsPastEnd | parallel/parallel.hpp:46 | With a callback always true, the as-written plan calls back index 2, outside `[0, 1)`. The clipped plan calls back exactly `[0]`. |
| ParallelWorkers.TypeFor | parallel/worker.hpp:96-97 | A null data pointer makes a FOR job and any other a FOREACH job, never UNDEFINED. |
| ParallelWorkers.JobParent.constructor | parallel/worker.hpp:27-31 | A new parent has the flag down and no jobs. |
| ParallelWorkers.JobParent.ForceQuit | parallel/worker.hpp:34-44 | The flag is up afterwards, so `should_force_quit` answers true, and nothing else changes. |
| ParallelWorkers.JobParent.HasFinished | parallel/worker.cpp:6-8 | True iff every job of the parent is finished. |
| ParallelWorkers.NarrowToIntCongruent | parallel/worker.hpp:111 | The index handed to the `int` callback lies in the 32-bit two's-complement range and is congruent to `i + start` modulo 2^32. Indices below 2^31 pass unchanged. |
| ParallelWorkers.ForIndexNarrows | parallel/parallel.hpp:83 | A FOR job at index 3000000000 calls the callback with `3000000000 - 2^32`, a negative `int`. |
| ParallelWorkers.AllFinished | parallel/worker.cpp:6-8 | True iff every job is finished, and true for no jobs. |
| ParallelWorkers.ParallelJob.constructor | parallel/worker.hpp:96-100 | Start, size, parent, data and callback are stored as given. The type follows TypeFor, and the job is not finished. |
| ParallelWorkers.ParallelJob.Process | parallel/worker.hpp:102-125 | Ends finished. Its calls are the reference loop over its chunk, or none if it was finished or force-quit on entry. It raises the parent's flag iff that loop finds a false answer. A FOREACH job answers with the element at each index, read from past the array where the chunk reaches beyond it. |
| ParallelWorkers.ParallelJob.BaseProcess | parallel/worker.hpp:77 | Only marks the job finished. |
| ParallelWorkers.ParallelWorker.constructor | parallel/worker.cpp:17-20 | A new worker is running, with an empty queue. |
| ParallelWorkers.ParallelWorker.Push | parallel/parallel.hpp:50 | The job is appended to the queue. |
| ParallelWorkers.ParallelWorker.Drain | parallel/worker.cpp:39-45 | Every queued job is processed and the queue ends empty. For a queue of one job, the calls and the flag are that job's `process`. src/worker.cpp:40-46 is the same loop. |
| ParallelWorkers.ParallelWorker.Destroy | parallel/worker.cpp:22-31 | `running` is cleared, every job still queued has finished, and the queue is empty. |
| ParallelRuntime.TraceCoversUnlessPastEnd | parallel/parallel.hpp:38-56 | After `init`, when no job starts past the end, a trace of the as-written plan is the reference loop over `[start, start + size)`. |
| ParallelRuntime.TraceWithinUnlessPastEnd | parallel/parallel.hpp:38-56 | As TraceCoversUnlessPastEnd, and then a range ending within `n` elements is called back only at indices below `n`. |
| ParallelRuntime.RangeWithin | parallel/worker.hpp:108-113 | The reference loop over `[lo, hi)` with `hi <= n` calls back only indices below `n`. |
| ParallelRuntime.ForEachReadsPastData | parallel/parallel.hpp:46 | `_foreach` over one element on three threads calls back index 2, past the one-element array, with an always-true callback. |
| ParallelRuntime.ParTraceCovers | parallel/parallel.hpp:38-56 | When no job starts past the end, the as-written jobs run in thread order call back exactly the reference loop over `[start, start + size)`. |
| ParallelRuntime.Runtime.constructor | parallel/parallel.cpp:5-6 | `n_threads` is -1 and `threads` is null. |
| ParallelRuntime.Runtime.Init | parallel/parallel.cpp:18-52 | `n_threads` is the resolved count, and `threads` is a fresh array of that many distinct, fresh, running, idle workers. |
| ParallelRuntime.Runtime.Clean | parallel/parallel.cpp:54-59 | `threads` is null and `n_threads` keeps its value. |
| ParallelRuntime.Runtime.CreateJob | parallel/parallel.hpp:32-61 | Before `init` nothing is called back and no worker changes. After it, the calls are those of the as-written plan run in worker order, and the workers are idle again. Nothing is required of the data: FOREACH jobs read whatever lies at each index. |
| ParallelRuntime.Runtime.For | parallel/parallel.hpp:83-85 | As CreateJob with FOR jobs, whose callback sees each index narrowed to `int`. When no job starts past the end, the calls are exactly the reference loop over the range. |
| ParallelRuntime.Runtime.ForEach | parallel/parallel.hpp:94-96 | As CreateJob with FOREACH jobs over the data, for any size. When no job starts past the end, the calls are exactly the reference loop, and with `size` within the data every index called back lies in it. |
| ParallelRuntime.WaitJobsFinish | parallel/parallel.cpp:8-16 | Returns at once for a null parent. Otherwise it returns with `has_finished` true and the job list unchanged. |
| ParallelRuntime.RunJob | parallel/parallel.hpp:38-60 | Pushing and waiting calls back the as-written plan in worker order, for any data, and leaves the workers idle. |
| ParallelRuntime.Dispatch | parallel/parallel.hpp:43-52 | After the first loop, worker k holds exactly its planned job k, unfinished, and the jobs are fresh and distinct. Jobs past the end of the data are made too. |
| ParallelRuntime.DispatchNext | parallel/parallel.hpp:45-51 | One turn makes job i as planned, queues it on worker i, and advances `given` by one slice. |
| ParallelRuntime.GivenIsProduct | parallel/parallel.hpp:43-47 | After i turns, `given` is `i * per`. |
| ParallelRuntime.PlanByJob | parallel/parallel.hpp:45-47 | The as-written plan's k-th chunk is the job the k-th turn makes. |
| ParallelRuntime.MakeJob | parallel/parallel.hpp:46 | The new job is unfinished, with the planned chunk (length wrapped as written), type, data and callback. |
| ParallelRuntime.PushNext | parallel/parallel.hpp:49-50 | Queuing the new job on worker i extends the dispatched state by one. |
| ParallelRuntime.Collect | parallel/parallel.hpp:54-56 | Draining the workers in order calls back the plan's chunks in order, and leaves the workers idle. |
| ParallelRuntime.DrainNext | parallel/worker.cpp:39-45 | Worker i's drain extends the calls and the flag by chunk i. |
| ParallelRuntime.DrainOne | parallel/worker.cpp:39-45 | A one-job queue is emptied, and the job's calls and flag are those of its chunk. |
| PlTasks.PlJob.constructor | include/pl/task.hpp:20-26 | A new job has no tasks and no workers. |
| PlTasks.PlJob.ForceQuit | src/task.cpp:11-14 | Every task's stop flag is up afterwards. The stop flag is a task's only mutable field, so nothing else changes. |
| PlTasks.PlJob.Load | src/task.cpp:16-19 | One fresh, running, unfinished worker per task is appended, in task order. The earlier workers are kept. |
| PlTasks.PlJob.Start | src/task.cpp:21-29 | Every worker is marked not finished, and `running` is unchanged. |
| PlTasks.PlJob.Wait | src/task.cpp:31-36 | Every worker ends finished, and without workers nothing is called back. When worker k runs task k and the tasks share answers and a stop flag, the calls are the chunks run in order and the stop flags end where that run leaves them. |
| PlTasks.PlJob.WaitStep | src/task.cpp:32-35 | Waiting on worker k extends the calls and the stop flag by chunk k. |
| PlTasks.PlJob.Clean | src/task.cpp:38-41 | Every worker is deleted but stays listed, with `finished` unchanged, so the job can no longer be cleaned. |
| PlTasks.PlJob.Destroy | src/task.cpp:6-9 | The tasks are deleted. |
| PlTasks.PlTask.constructor | include/pl/task.hpp:88-95 | Type, start, length, data, callback and job are stored as given, with the stop flag down. |
| PlTasks.PlTask.Stop | include/pl/task.hpp:45 | The stop flag is up. |
| PlTasks.PlTask.RunStep | include/pl/task.hpp:97-117 | A task that runs is one step of the chunked run: same calls, same resulting flag. |
| PlTasks.PlTask.Process | include/pl/task.hpp:97-117 | The calls are the task's trace. `force_quit` is called at most once, exactly when the task runs and either the stop flag was up on entry with `length > 0`, or the flag was down and an answer was false. Each task's flag ends up iff it was up or `force_quit` was called. |
| PlTasks.PlTask.Walk | include/pl/task.hpp:100-104 | The loop calls back the reference loop over the task's chunk, or nothing if stopped. It leaves through `force_quit` iff stopped or an answer was false. |
| PlTasks.PlWorker.constructor | include/pl/worker.hpp:22-28 | The task and parent are as given. The worker is running, not finished and not deleted. |
| PlTasks.PlWorker.Restart | include/pl/worker.hpp:20 | `finished` is false. |
| PlTasks.PlWorker.Run | include/pl/worker.hpp:49-54 | One pass runs the task, whose calls and flags are as in Process, and ends finished. |
| PlTasks.PlWorker.Release | include/pl/worker.hpp:30-37 | `running` is false, and the worker is gone. |
| PlParallel.CreateJob | include/pl/parallel.hpp:17-56 | A fresh job without workers, whose tasks' chunks are the plan for the resolved core count. All tasks are alike, with the stop flag down. |
| PlParallel.FillTasks | include/pl/parallel.hpp:41-53 | The loop's tasks are exactly the plan, pushed in order. |
| PlParallel.PlanStep | include/pl/parallel.hpp:46-52 | One turn moves the next planned chunk from the remainder to the pushed tasks. |
| PlParallel.AddTask | include/pl/parallel.hpp:46-49 | A fresh task over the given chunk is appended. |
| PlParallel.CreatedInBounds | include/pl/parallel.hpp:82-83 | For `_foreach`'s `[0, length)` within the data, every task reads inside the data. |
| PlParallel.SameTasks | include/pl/parallel.hpp:46 | Tasks made alike share one answer function and one lowered stop flag. |
| PlParallel.For | include/pl/parallel.hpp:65-72 | As written, the callback is never called, because no worker was ever loaded. |
| PlParallel.ForEach | include/pl/parallel.hpp:82-87 | As written, the callback is never called. |
| PlParallel.CreateLoaded | src/task.cpp:16-29 | After create, load and start, worker k is bound to task k. None has finished, the flags are down, and the tasks answer with the callback. |
| PlParallel.WaitLoaded | src/task.cpp:31-36 | Waiting on a loaded job calls back the plan's chunks run in order. |
| PlParallel.RunLoaded | include/pl/parallel.hpp:65-72 | With load added, the calls are exactly the reference loop over `[start, start + size)`, or nothing when the policy resolves to 0 cores. |
| PlParallel.WaitCovers | src/task.cpp:31-36 | Waiting on a job loaded with the plan calls back exactly the reference loop over `[start, start + size)`, or nothing for 0 cores, and leaves the job cleanable. |
| PlParallel.PlanTraceCovers | include/pl/parallel.hpp:41-53 | The plan's chunks, run in order, call back the reference loop. |
| PlParallel.ForLoaded | include/pl/parallel.hpp:65-72 | With load added, `_for` calls back each index of the range once, ascending, up to the first false answer, and all of them when none is false. When the policy resolves to 0 cores nothing is called back. |
| PlParallel.ForEachLoaded | include/pl/parallel.hpp:82-87 | With load added, `_foreach` calls back `data[0..length)` in order, up to the first false answer, and all of it when none is false. When the policy resolves to 0 cores nothing is called back. |
| PlParallel.AsyncFor | include/pl/parallel.hpp:97-102 | A fresh, started job whose fresh tasks are the plan for the resolved core count, with no workers. Every task is a FOR task over the index, with the stop flag down and the given callback. |
| PlParallel.AsyncForEach | include/pl/parallel.hpp:113-117 | A fresh, started job whose fresh tasks are the plan over `[0, length)`, with no workers. Every task is a FOREACH task over the data, with the stop flag down and the given callback. |
| VectorPtrs.Item.constructor | include/pl/vector_ptr.hpp:16-18 | The item holds the value and has no links. |
| VectorPtrs.Item.SetNext | include/pl/vector_ptr.hpp:28-31 | `a.next == b` and `b.previous == a`. Nothing else changes. |
| VectorPtrs.Item.SetPrevious | include/pl/vector_ptr.hpp:37-40 | `a.previous == b` and `b.next == a`. Nothing else changes. |
| VectorPtrs.VectorPtr.constructor | include/pl/vector_ptr.hpp:45-47 | An empty, well-formed list. |
| VectorPtrs.VectorPtr.PushBack | include/pl/vector_ptr.hpp:49-59 | The list stays well formed, gains v at the end and one in size. On a non-empty list the head is kept and the new tail links back to the old one. |
| VectorPtrs.VectorPtr.PushFront | include/pl/vector_ptr.hpp:65-74 | As written, the list the head reaches is one fresh item holding v. The size grows only if the list was non-empty, so the list is never well formed afterwards. |
| VectorPtrs.VectorPtr.PushFrontIntended | include/pl/vector_ptr.hpp:65-74 | The list stays well formed, gains v at the front and one in size. |
| VectorPtrs.VectorPtr.JoinBack | include/pl/vector_ptr.hpp:76-78 | The other list's head is linked after this list's tail, in both directions, and nothing else changes. |
| VectorPtrs.VectorPtr.Clear | include/pl/vector_ptr.hpp:80-83 | No head, no tail, size 0, and well formed. |
| VectorPtrs.VectorPtr.For | include/pl/vector_ptr.hpp:85-91 | The callback gets the list's values from the head, in push order, one per counted item. |
| Coins.Coin.Empty | include/pl/coin.hpp:14 | A null value and no links. |
| Coins.Coin.constructor | include/pl/coin.hpp:15 | The given value and no links. |
| Coins.Coin.Copy | include/pl/coin.hpp:16-17 | The value and both links of the other coin. |
| Coins.Coin.SetValue | include/pl/coin.hpp:37-43 | `value()` then returns what was set. |
| Coins.Coin.SetNext | include/pl/coin.hpp:49-56 | Linking to itself changes nothing. With another coin the links go both ways; with null only `next` is cleared. |
| Coins.Coin.SetPrevious | include/pl/coin.hpp:62-69 | The mirror image of SetNext. |
| Coins.Coin.RemoveFromList | include/pl/coin.hpp:28-35 | Both links end null. Removing from the middle or end of a chain leaves a chain. Removing the head of a chain of two or more leaves the new head pointing back at the removed coin. |
| Coins.Coin.Unlink | include/pl/coin.hpp:19-24 | The destructor's relinking leaves the rest of the chain a chain, from any position. |
| Coins.Coin.RemoveFromListIntended | include/pl/coin.hpp:28-35 | Both links end null, and removal from any position of a chain leaves a chain. |
| Coins.RemovedChain | include/pl/coin.hpp:29-32 | Once a coin's neighbours are linked to each other, or are the new ends, the remaining coins form a chain. |

## Left out

- Threads, mutexes, condition variables, `notify_*`, `join` and the
  `wait_for` timeout are not modelled. Each wait runs the pending work in
  worker order, which is one legal schedule; other interleavings are not
  covered.
- `thread_pool`, the `safe_*` wrappers and the thread loop of `pl_worker`
  are not part of this model. Only its flag protocol is kept: restart, run,
  then report finished.
- Memory management is not modelled: `new`, `delete`, `malloc` and `free`,
  including `free` on `new`-ed workers in `parallel::clean`, and `delete`
  of the coin's value. Deletion appears only as flags (`released`,
  `tasksDeleted`).
- `printf` error messages are not modelled.
- Floating point is not modelled. `std::ceil` over `float` or `long double`
  is exact integer ceiling division here; for sizes beyond a float's
  precision the source can round differently.
- Integer widths: `int given`, `int job_per_core` and `auto i` in
  parallel/, and the `size_t` start `given + _start`, are unbounded. Two
  conversions are modelled. The `size_t` length subtraction at
  parallel/parallel.hpp:46 wraps. The `int` parameter of the parallel/
  `_for` callback (parallel/parallel.hpp:83) receives `i + start`
  narrowed modulo 2^32 (parallel/worker.hpp:111), so indices of 2^31 and
  above reach it negative. `n_threads` is `unsigned int` with the -1
  sentinel. In include/pl, the `size_t` task start `tasks_given + _start`
  (include/pl/parallel.hpp:46) and the loop bound `m_start + m_length`
  (include/pl/task.hpp:100,107) are unbounded, with no wrap at 2^64.
- PlTasks.PlTask.Process, PlTasks.PlTask.Walk, Planner.PlTasksFrom and
  PlParallel.ForLoaded: they treat `_start + _length` as unbounded. When
  it reaches 2^64 the source's loop bound wraps. For example,
  `_for(2^64 - 1, 2, cb)` calls back nothing in the source, while the
  model calls back 2^64 - 1 and 2^64. The model agrees with the source
  only for ranges that end below 2^64.
- `std::thread::hardware_concurrency()` is a parameter.
- The element type is `int`.
- PL_CORES_ALL_MINUS_ONE decrements an uninitialised variable, so the
  include/pl entry points require another policy.
- `pl_job::load` is defined in src/task.cpp but declared nowhere in
  include/pl/task.hpp, and no entry point calls it.
- ParallelRuntime.Runtime.Clean: `n_threads` keeps its value after
  `clean`, so a later `create_job` would index a null array. That call is
  excluded by CreateJob's `Ready()` requirement rather than modelled.
  Clean itself requires a live worker array (or a count of 0). A second
  `clean`, or a `clean` before `init`, dereferences a null array at
  parallel/parallel.cpp:55-56, and that undefined behaviour is not
  modelled.
- Callbacks by reference: include/pl/parallel.hpp:65 and :82 pass the
  index (`size_t&`) or the element (`T&`) by reference, and
  include/pl/task.hpp:100-108 reads it back after the call. A callback
  that rewrites the index or the element is not modelled. Callbacks are
  pure functions of the index or the element here.
- Worker threads start early: `pl_worker`'s constructor starts its thread
  at include/pl/worker.hpp:22-27, and the thread runs its task at once
  (include/pl/worker.hpp:49-50). With `load` followed by `start`, a task can
  therefore run twice. PlParallel.ForLoaded's "each index once" holds only
  for the modelled schedule, in which each task runs once, at `wait`.
- ParallelRuntime.Runtime.ForEach: parallel/parallel.hpp:94-95 also
  accepts a null `_data`, for which the `parallel_job` constructor makes
  FOR jobs. ForEach takes the data as a sequence and always passes its memory, so
  that path is modelled by CreateJob with no data, not by ForEach.
- VectorPtrs.VectorPtr.For: it requires a well-formed list, so `_for`
  after the as-written `push_front`, which leaves the list ill-formed, is
  not modelled.
- Memory past the array is any function of the index. What a real read
  past the end returns, or whether it faults, is not modelled.
- ParallelRuntime.Runtime.For: the callback trace is tied to the
  reference loop only when no job starts past the end of the range. Past
  it, only the trace of the as-written plan is stated.
- ParallelRuntime.WaitJobsFinish: the callbacks it runs are returned but
  not stated.
- ParallelWorkers.ParallelWorker.Drain: the trace is stated only for a
  queue of one job, the only queue `create_job` builds.
- ParallelWorkers.ParallelWorker.Destroy: the trace of the jobs it drains
  is not stated.
- PlTasks.PlJob.Wait: the trace is stated only when worker k runs task k
  and all tasks share answers and a stop flag.
- VectorPtrs.VectorPtr.JoinBack: it states the new links only. The list
  reached from this head is not restated, and the tail and size are left
  as they were.
- VectorPtrs.VectorPtr.PushBack: `m_size` is an unbounded count with no
  `size_t` wrap-around. The uninitialised `m_size` is taken to start at 0.

## Findings

| source | as written | input that shows it | evidently intended | confidence | as-written member | corrected member |
|---|---|---|---|---|---|---|
| include/pl/parallel.hpp:28 | HALF is `std::min(physical_cores / 2, 1)`, so it never exceeds one core; QUARTER at line 31 is the same. | 8 hardware threads: HALF gives 1 core, not 4. 1 hardware thread: HALF gives 0 cores, so no task is made and nothing is called back. | `std::max`, a share of at least one core | high; not executed | Cores.PlHalfUsesMin | Cores.ResolvePlIntended |
| parallel/parallel.hpp:46 | `_size - given` in `size_t` wraps below zero once `given > _size`. | 1 index on 3 threads: job 2 is (2, 2^64 - 1), and an always-true callback is called at index 2, outside [0, 1). `_foreach` over a 1-element array on 3 threads reads `data[2]`, past the array. | clip the length at zero | high; not executed | Planner.ParPlanUnderflowRunsPastEnd, ParallelRuntime.ForEachReadsPastData | Planner.ParPlanTiles |
| include/pl/parallel.hpp:65-72 | `_for` (and `_foreach`, lines 82-87) never loads the job, so it has no workers; `wait` returns at once. | any range and callback: nothing is called back | call `load` before `start` | high; not executed | PlParallel.For | PlParallel.ForLoaded |
| include/pl/vector_ptr.hpp:65-74 | `push_front` links a new item after the tail, then replaces head and tail with a second fresh item. | list [a] then push_front(v): the head reaches only [v], while the size is 2 | link the new item before the head | high; not executed | VectorPtrs.VectorPtr.PushFront | VectorPtrs.VectorPtr.PushFrontIntended |
| include/pl/coin.hpp:32 | `m_next->set_previous(m_next)` is a self-link, which `set_previous` ignores. | chain [a, b], a.remove_from_list(): b.previous is still a | `m_next->set_previous(m_previous)` | high; not executed | Coins.Coin.RemoveFromList | Coins.Coin.RemoveFromListIntended |
