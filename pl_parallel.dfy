/**
 * The front end of the include/pl revision (include/pl/parallel.hpp): job
 * creation and the four public entry points, over the sequential model of
 * jobs in PlTasks.
 *
 * The hardware thread count is a parameter. Data is a sequence of `int`; a
 * FOR job's data pointer is unused, so it is given as the empty sequence.
 */
module PlParallel {
  import opened Scan
  import opened Cores
  import opened Planner
  import opened PlTasks

  /**
   * `create_job`: resolve the core policy, then push one task per core over
   * consecutive slices of `tasks_per_core` indices, clipping the last, until
   * the range is given out. The tasks' chunks are the plan PlPlan, which
   * PlPlanShape proves tiles the range whenever at least one core resolves.
   */
  method CreateJob(taskType: TaskType, start: nat, size: nat, data: seq<int>, callback: int -> bool,
                   cores: PlCores, physical: nat, indexed: bool) returns (job: PlJob)
    requires cores != PlAllMinusOne
    ensures fresh(job) && fresh(job.tasks) && job.Valid() && job.workers == [] && !job.tasksDeleted
    ensures Chunks(job.tasks) == PlPlan(start, size, ResolvePl(cores, physical).value)
    ensures forall t :: t in job.tasks ==>
      && !t.stop
      && t.taskType == taskType && t.indexed == indexed && t.data == data && t.callback == callback
  {
    var actual := ResolvePl(cores, physical).value;
    job := FillTasks(taskType, start, size, data, callback, actual, indexed);
  }

  /** The loop of `create_job` over `actual` resolved cores. */
  method FillTasks(taskType: TaskType, start: nat, size: nat, data: seq<int>, callback: int -> bool,
                   actual: nat, indexed: bool) returns (job: PlJob)
    ensures fresh(job) && fresh(job.tasks) && Creating(job, taskType, data, callback, indexed)
    ensures Chunks(job.tasks) == PlPlan(start, size, actual)
  {
    job := new PlJob();
    var per := PlPerCore(size, actual);
    var given: nat := 0;
    var i: nat := 0;
    ghost var plan := PlPlan(start, size, actual);
    while i < actual
      invariant given <= size
      invariant fresh(job.tasks) && Creating(job, taskType, data, callback, indexed)
      invariant Chunks(job.tasks) + PlTasksFrom(start, size, per, actual, i, given) == plan
    {
      ghost var done := Chunks(job.tasks);
      var task := AddTask(job, taskType, given + start, if per + given > size then size - given else per, data, callback, indexed);
      PlanStep(done, plan, start, size, per, actual, i, given);
      given := given + per;
      if given >= size {
        break;
      }
      i := i + 1;
    }
    assert i == actual ==> PlTasksFrom(start, size, per, actual, i, given) == [];
  }

  /** The plan after one turn of the loop: the chunk just pushed, then the rest of the plan, or nothing once the range is given out. */
  lemma PlanStep(done: seq<Chunk>, plan: seq<Chunk>, start: nat, size: nat, per: nat, cores: nat, i: nat, given: nat)
    requires given <= size && i < cores
    requires done + PlTasksFrom(start, size, per, cores, i, given) == plan
    ensures var c := Chunk(given + start, if per + given > size then size - given else per);
      && (given + per >= size ==> done + [c] == plan)
      && (given + per < size ==> (done + [c]) + PlTasksFrom(start, size, per, cores, i + 1, given + per) == plan)
  {
    assert PlTasksFrom(start, size, per, cores, i, given) ==
      [Chunk(given + start, if per + given > size then size - given else per)] +
      (if given + per >= size then [] else PlTasksFrom(start, size, per, cores, i + 1, given + per));
  }

  /** The job `create_job` is filling: no workers yet, and every task made alike with a lowered stop flag. */
  ghost predicate Creating(job: PlJob, taskType: TaskType, data: seq<int>, callback: int -> bool, indexed: bool)
    reads job, job.tasks
  {
    && job.Valid() && job.workers == [] && !job.tasksDeleted
    && forall t :: t in job.tasks ==>
      && !t.stop
      && t.taskType == taskType && t.indexed == indexed && t.data == data && t.callback == callback
  }

  /** `job->tasks.push_back(new pl_task<T>(...))`: one more task over [start, start + length). */
  method AddTask(job: PlJob, taskType: TaskType, start: nat, length: nat, data: seq<int>, callback: int -> bool, indexed: bool)
      returns (task: PlTask)
    requires Creating(job, taskType, data, callback, indexed)
    modifies job`tasks
    ensures fresh(task) && task.Span() == Chunk(start, length)
    ensures job.tasks == old(job.tasks) + [task]
    ensures Chunks(job.tasks) == old(Chunks(job.tasks)) + [Chunk(start, length)]
    ensures Creating(job, taskType, data, callback, indexed)
  {
    task := new PlTask(job, taskType, start, length, data, callback, indexed);
    ChunksSnoc(job.tasks, task);
    job.tasks := job.tasks + [task];
  }

  /** The tasks of a created FOREACH job over `length` elements only read elements of `data`. */
  lemma CreatedInBounds(job: PlJob, size: nat, data: seq<int>, cores: PlCores, physical: nat)
    requires cores != PlAllMinusOne && size <= |data|
    requires Chunks(job.tasks) == PlPlan(0, size, ResolvePl(cores, physical).value)
    requires forall t :: t in job.tasks ==> t.data == data
    ensures job.TasksInBounds()
  {
    var actual := ResolvePl(cores, physical).value;
    if actual >= 1 {
      PlPlanTiles(0, size, actual);
      TilesWithin(PlPlan(0, size, actual), 0, size);
      forall t | t in job.tasks
        ensures t.InBounds()
      {
        var k :| 0 <= k < |job.tasks| && job.tasks[k] == t;
        assert Chunks(job.tasks)[k] == t.Span();
      }
    } else {
      assert |job.tasks| == 0;
    }
  }

  /** Tasks made alike by `create_job` answer alike and share a lowered stop flag. */
  lemma SameTasks(job: PlJob, taskType: TaskType, data: seq<int>, callback: int -> bool, indexed: bool)
    requires job.tasks != []
    requires taskType == TaskForEach || (taskType == TaskFor && indexed)
    requires forall t :: t in job.tasks ==>
      && !t.stop
      && t.taskType == taskType && t.indexed == indexed && t.data == data && t.callback == callback
    ensures job.Uniform() && job.StopsAre(false) && !job.JobStop()
    ensures job.JobAnswers() == Answers(taskType, data, callback)
  {
    assert job.tasks[0] in job.tasks;
  }

  /**
   * `_for`, as written: the job gets its tasks but no workers, as it never
   * calls `load`, so waiting on it returns at once and the callback is never
   * called.
   */
  method For(start: nat, length: nat, callback: int -> bool, cores: PlCores, physical: nat) returns (visited: seq<nat>)
    requires cores != PlAllMinusOne
    ensures visited == []
  {
    var job := CreateJob(TaskFor, start, length, [], callback, cores, physical, true);
    job.Start();
    visited := job.Wait();
    job.Clean();
    job.Destroy();
  }

  /** `_foreach`, as written: like `_for`, no worker runs, and the job is cleaned but not deleted. */
  method ForEach(data: seq<int>, length: nat, callback: int -> bool, cores: PlCores, physical: nat) returns (visited: seq<nat>)
    requires cores != PlAllMinusOne && length <= |data|
    ensures visited == []
  {
    var job := CreateJob(TaskForEach, 0, length, data, callback, cores, physical, false);
    CreatedInBounds(job, length, data, cores, physical);
    job.Start();
    visited := job.Wait();
    job.Clean();
  }

  /**
   * A loaded, started job over `plan`: worker k runs task k, none has
   * finished, no stop flag is up, the tasks stay within their data and
   * answer `ok`, and the job may still be cleaned.
   */
  ghost predicate Loaded(job: PlJob, plan: seq<Chunk>, ok: nat -> bool)
    reads job, job.workers, job.tasks
  {
    && job.Valid() && job.Cleanable() && job.TasksInBounds() && !job.tasksDeleted
    && Chunks(job.tasks) == plan
    && job.Bound() && job.NoneFinished() && job.Uniform() && job.StopsAre(false) && !job.JobStop()
    && (job.tasks != [] ==> job.JobAnswers() == ok)
  }

  /**
   * Create, load and start: every task has its own fresh worker, none
   * finished, and the tasks share their answers and a lowered stop flag.
   */
  method CreateLoaded(taskType: TaskType, start: nat, size: nat, data: seq<int>, callback: int -> bool,
                      cores: PlCores, physical: nat) returns (job: PlJob)
    requires cores != PlAllMinusOne
    requires taskType == TaskFor || taskType == TaskForEach
    requires taskType == TaskForEach ==> start == 0 && size <= |data|
    ensures fresh(job) && fresh(job.tasks) && fresh(job.workers)
    ensures Loaded(job, PlPlan(start, size, ResolvePl(cores, physical).value), Answers(taskType, data, callback))
  {
    job := CreateJob(taskType, start, size, data, callback, cores, physical, taskType == TaskFor);
    if taskType == TaskForEach {
      CreatedInBounds(job, size, data, cores, physical);
    }
    job.Load();
    job.Start();
    if job.tasks != [] {
      SameTasks(job, taskType, data, callback, taskType == TaskFor);
    }
  }

  /** `wait` on a loaded job: its callbacks are those of running the plan's chunks in order. */
  method WaitLoaded(job: PlJob, ghost plan: seq<Chunk>, ghost ok: nat -> bool) returns (visited: seq<nat>)
    requires Loaded(job, plan, ok)
    modifies job.workers, job.tasks
    ensures unchanged(job) && job.Valid() && job.Cleanable()
    ensures visited == SeqTrace(false, plan, ok)
  {
    visited := job.Wait();
  }

  /**
   * Create, load, start and wait: the sequence `_for` and `_foreach` need.
   * The job calls back exactly what one loop over [start, start + size)
   * would, stopping after the first `false` answer.
   */
  method RunLoaded(taskType: TaskType, start: nat, size: nat, data: seq<int>, callback: int -> bool,
                   cores: PlCores, physical: nat) returns (job: PlJob, visited: seq<nat>)
    requires cores != PlAllMinusOne
    requires taskType == TaskFor || taskType == TaskForEach
    requires taskType == TaskForEach ==> start == 0 && size <= |data|
    ensures fresh(job) && job.Valid() && job.Cleanable() && !job.tasksDeleted
    ensures fresh(job.tasks) && fresh(job.workers)
    ensures ResolvePl(cores, physical).value >= 1 ==>
      visited == Range(start, start + ScanLength(Answers(taskType, data, callback), start, start + size))
    ensures ResolvePl(cores, physical).value == 0 ==> visited == []
  {
    job := CreateLoaded(taskType, start, size, data, callback, cores, physical);
    visited := WaitCovers(job, start, size, ResolvePl(cores, physical).value, Answers(taskType, data, callback));
  }

  /** `wait` on a job loaded with the plan for `actual` cores: the calls are one loop over the range. */
  method WaitCovers(job: PlJob, start: nat, size: nat, actual: nat, ghost ok: nat -> bool) returns (visited: seq<nat>)
    requires Loaded(job, PlPlan(start, size, actual), ok)
    modifies job.workers, job.tasks
    ensures unchanged(job) && job.Valid() && job.Cleanable()
    ensures actual >= 1 ==> visited == Range(start, start + ScanLength(ok, start, start + size))
    ensures actual == 0 ==> visited == []
  {
    visited := WaitLoaded(job, PlPlan(start, size, actual), ok);
    PlanTraceCovers(visited, start, size, actual, ok);
  }

  /** The trace of running the plan's chunks in order, as RunLoaded promises it. */
  lemma PlanTraceCovers(visited: seq<nat>, start: nat, size: nat, actual: nat, ok: nat -> bool)
    requires visited == SeqTrace(false, PlPlan(start, size, actual), ok)
    ensures actual >= 1 ==> visited == Range(start, start + ScanLength(ok, start, start + size))
    ensures actual == 0 ==> visited == []
  {
    if actual >= 1 {
      PlPlanTiles(start, size, actual);
      SeqTraceOfTiles(PlPlan(start, size, actual), start, start + size, ok);
    }
  }

  /**
   * `_for` with the missing `load`: every index of [start, start + length)
   * up to the first `false` answer is called back once, in ascending order,
   * and all of them when no answer is `false`.
   */
  method ForLoaded(start: nat, length: nat, callback: int -> bool, cores: PlCores, physical: nat) returns (visited: seq<nat>)
    requires cores != PlAllMinusOne
    ensures ResolvePl(cores, physical).value >= 1 ==>
      visited == Range(start, start + ScanLength(Answers(TaskFor, [], callback), start, start + length))
    ensures ResolvePl(cores, physical).value >= 1 && (forall i: nat :: start <= i < start + length ==> callback(i)) ==>
      visited == Range(start, start + length)
    ensures ResolvePl(cores, physical).value == 0 ==> visited == []
  {
    var job;
    job, visited := RunLoaded(TaskFor, start, length, [], callback, cores, physical);
    if forall i: nat :: start <= i < start + length ==> callback(i) {
      ScanCompletes(Answers(TaskFor, [], callback), start, start + length);
    }
    job.Clean();
    job.Destroy();
  }

  /** `_foreach` with the missing `load`: the elements of data[0..length) are called back in order up to the first `false` answer. */
  method ForEachLoaded(data: seq<int>, length: nat, callback: int -> bool, cores: PlCores, physical: nat) returns (visited: seq<nat>)
    requires cores != PlAllMinusOne && length <= |data|
    ensures ResolvePl(cores, physical).value >= 1 ==>
      visited == Range(0, ScanLength(Answers(TaskForEach, data, callback), 0, length))
    ensures ResolvePl(cores, physical).value >= 1 && (forall i :: 0 <= i < length ==> callback(data[i])) ==>
      visited == Range(0, length)
    ensures ResolvePl(cores, physical).value == 0 ==> visited == []
  {
    var job;
    job, visited := RunLoaded(TaskForEach, 0, length, data, callback, cores, physical);
    if forall i :: 0 <= i < length ==> callback(data[i]) {
      ScanCompletes(Answers(TaskForEach, data, callback), 0, length);
    }
    job.Clean();
  }

  /**
   * `async_for`: a started job for the caller to wait on and delete: FOR
   * tasks over the plan, each with the callback and a lowered stop flag, but,
   * as written, no workers.
   */
  method AsyncFor(start: nat, length: nat, callback: int -> bool, cores: PlCores, physical: nat) returns (job: PlJob)
    requires cores != PlAllMinusOne
    ensures fresh(job) && fresh(job.tasks) && job.Valid() && job.workers == [] && !job.tasksDeleted
    ensures Chunks(job.tasks) == PlPlan(start, length, ResolvePl(cores, physical).value)
    ensures forall t :: t in job.tasks ==>
      && !t.stop
      && t.taskType == TaskFor && t.indexed && t.data == [] && t.callback == callback
  {
    job := CreateJob(TaskFor, start, length, [], callback, cores, physical, true);
    job.Start();
  }

  /** `async_foreach`: the FOREACH counterpart of `async_for`, over data[0..length). */
  method AsyncForEach(data: seq<int>, length: nat, callback: int -> bool, cores: PlCores, physical: nat) returns (job: PlJob)
    requires cores != PlAllMinusOne
    ensures fresh(job) && fresh(job.tasks) && job.Valid() && job.workers == [] && !job.tasksDeleted
    ensures Chunks(job.tasks) == PlPlan(0, length, ResolvePl(cores, physical).value)
    ensures forall t :: t in job.tasks ==>
      && !t.stop
      && t.taskType == TaskForEach && !t.indexed && t.data == data && t.callback == callback
  {
    job := CreateJob(TaskForEach, 0, length, data, callback, cores, physical, false);
    job.Start();
  }
}
