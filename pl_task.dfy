/**
 * Jobs, tasks and workers of the include/pl revision (include/pl/task.hpp,
 * src/task.cpp, and the flag protocol of include/pl/worker.hpp).
 *
 * Threads are sequential here: a worker's run of its task happens when the
 * job is waited on, one worker after another in worker order, which is one
 * of the schedules the real threads allow. Mutexes and condition variables
 * are gone; only the flag and list effects remain. The element type of the
 * templates is fixed to `int`.
 */
module PlTasks {
  import opened Scan

  /** `pl_job_task`. */
  datatype TaskType = TaskUndefined | TaskFor | TaskForEach

  /**
   * What the callback answers at index i: a FOR task passes the index, a
   * FOREACH task passes `data[i]`.
   */
  function Answers(taskType: TaskType, data: seq<int>, callback: int -> bool): nat -> bool
  {
    i => if taskType == TaskForEach then (if 0 <= i < |data| then callback(data[i]) else true) else callback(i)
  }

  /** `pl_job`: owns its tasks and the workers that run them. */
  class PlJob {
    var tasks: seq<PlTask>
    var workers: seq<PlWorker>
    /** Set by the destructor, which deletes every task. */
    var tasksDeleted: bool

    constructor ()
      ensures tasks == [] && workers == [] && !tasksDeleted
    {
      tasks := [];
      workers := [];
      tasksDeleted := false;
    }

    /** Every task and worker belongs to this job; each worker is a distinct object bound to one of its tasks. */
    ghost predicate Valid()
      reads this
    {
      && (forall t :: t in tasks ==> t.job == this)
      && (forall w :: w in workers ==> w.parent == this && w.task in tasks)
      && (forall i, j :: 0 <= i < j < |workers| ==> workers[i] != workers[j])
    }

    /** Worker k runs task k, one worker per task. */
    ghost predicate Bound()
      reads this
    {
      |workers| == |tasks| && forall k :: 0 <= k < |workers| ==> workers[k].task == tasks[k]
    }

    /** The answer function of the first task, which `create_job` gives to all. */
    ghost function JobAnswers(): nat -> bool
      reads this
    {
      if tasks == [] then (i => true) else tasks[0].Answer()
    }

    /** Every task runs its loop and answers like the first. */
    ghost predicate Uniform()
      reads this
    {
      forall t :: t in tasks ==> t.Runs() && t.Answer() == JobAnswers()
    }

    ghost predicate StopsAre(q: bool)
      reads this, tasks
    {
      forall t :: t in tasks ==> t.stop == q
    }

    ghost predicate AllFinished()
      reads this, workers
    {
      forall w :: w in workers ==> w.finished
    }

    ghost predicate NoneFinished()
      reads this, workers
    {
      forall w :: w in workers ==> !w.finished
    }

    /** No worker has been deleted yet, so `clean` may delete them. */
    ghost predicate Cleanable()
      reads this, workers
    {
      forall w :: w in workers ==> !w.released
    }

    ghost predicate TasksInBounds()
      reads this
    {
      forall t :: t in tasks ==> t.InBounds()
    }

    /** `force_quit`: raise the stop flag of every task, touching nothing else. */
    method ForceQuit()
      modifies tasks
      ensures forall t :: t in tasks ==> t.stop
    {
      for k := 0 to |tasks|
        invariant forall j :: 0 <= j < k ==> tasks[j].stop
      {
        tasks[k].Stop();
      }
    }

    /** `load`: one new worker per task, in task order, each bound to its task. */
    method Load()
      requires Valid()
      modifies this
      ensures Valid()
      ensures tasks == old(tasks) && tasksDeleted == old(tasksDeleted)
      ensures |workers| == |old(workers)| + |tasks|
      ensures workers[..|old(workers)|] == old(workers)
      ensures old(workers) == [] ==> Bound()
      ensures fresh(workers[|old(workers)|..])
      ensures forall k :: 0 <= k < |tasks| ==>
        && workers[|old(workers)| + k].task == tasks[k]
        && !workers[|old(workers)| + k].finished
        && workers[|old(workers)| + k].running
        && !workers[|old(workers)| + k].released
    {
      ghost var before := workers;
      ghost var added: seq<PlWorker> := [];
      for k := 0 to |tasks|
        invariant Valid()
        invariant tasks == old(tasks) && tasksDeleted == old(tasksDeleted)
        invariant workers == before + added && |added| == k
        invariant fresh(added)
        invariant forall j :: 0 <= j < k ==> added[j].task == tasks[j]
        invariant forall j :: 0 <= j < k ==> !added[j].finished && added[j].running && !added[j].released
      {
        var w := new PlWorker(this, tasks[k]);
        workers := workers + [w];
        added := added + [w];
      }
      assert workers[..|before|] == before;
      assert workers[|before|..] == added;
    }

    /** `start`: clear every worker's `finished`, so that each runs its task again. */
    method Start()
      requires Cleanable()
      modifies workers
      ensures NoneFinished() && Cleanable()
      ensures forall w :: w in workers ==> w.running == old(w.running)
    {
      for k := 0 to |workers|
        invariant forall j :: 0 <= j < k ==> !workers[j].finished
        invariant Cleanable()
        invariant forall w :: w in workers ==> w.running == old(w.running)
      {
        workers[k].Restart();
      }
    }

    /**
     * `wait`: returns once every worker reports `finished`. The workers that
     * have not finished run here, in order, and the indices their tasks call
     * back are returned. When worker k runs task k, none has finished, all
     * tasks answer alike and share one stop flag, the job calls back what
     * running its chunks in order does.
     */
    method Wait() returns (visited: seq<nat>)
      requires Valid() && Cleanable() && TasksInBounds()
      modifies workers, tasks
      ensures unchanged(this) && AllFinished() && Cleanable()
      ensures old(workers) == [] ==> visited == []
      ensures old(Bound() && NoneFinished() && Uniform() && StopsAre(JobStop())) ==>
        && visited == SeqTrace(old(JobStop()), old(Chunks(tasks)), old(JobAnswers()))
        && StopsAre(SeqQuit(old(JobStop()), old(Chunks(tasks)), old(JobAnswers())))
    {
      ghost var tracked := Bound() && NoneFinished() && Uniform() && StopsAre(JobStop());
      ghost var q := JobStop();
      ghost var ok := JobAnswers();
      ghost var cs := Chunks(tasks);
      ghost var quit := q;
      visited := [];
      for k := 0 to |workers|
        invariant Waited(k, tracked, q, cs, ok, quit, visited)
      {
        visited, quit := WaitStep(k, tracked, q, cs, ok, quit, visited);
      }
      if tracked {
        assert cs[..|workers|] == cs;
      }
    }

    /**
     * The state `wait` keeps after its first k workers: those have finished;
     * when the job was tracked (worker j runs task j, none had finished, one
     * answer function and one shared stop flag), the later workers have not,
     * and the callbacks so far are those of running chunks 0 .. k - 1 in
     * order, with the stop flag where that run leaves it.
     */
    ghost predicate Waited(k: nat, tracked: bool, q: bool, cs: seq<Chunk>, ok: nat -> bool, quit: bool, visited: seq<nat>)
      reads this, workers, tasks
    {
      && k <= |workers|
      && Cleanable()
      && (forall j :: 0 <= j < k ==> workers[j].finished)
      && (workers == [] ==> visited == [])
      && (tracked ==>
        && Bound() && Uniform() && cs == Chunks(tasks) && ok == JobAnswers()
        && (forall j :: k <= j < |workers| ==> !workers[j].finished)
        && visited == SeqTrace(q, cs[..k], ok) && quit == SeqQuit(q, cs[..k], ok)
        && StopsAre(quit))
    }

    /** One turn of the `wait` loop: worker k runs its task unless it has finished. */
    method WaitStep(k: nat, ghost tracked: bool, ghost q: bool, ghost cs: seq<Chunk>, ghost ok: nat -> bool,
                    ghost quit: bool, visited: seq<nat>) returns (visited': seq<nat>, ghost quit': bool)
      requires Valid() && TasksInBounds() && k < |workers|
      requires Waited(k, tracked, q, cs, ok, quit, visited)
      modifies workers[k], tasks
      ensures Waited(k + 1, tracked, q, cs, ok, quit', visited')
    {
      var w := workers[k];
      visited', quit' := visited, quit;
      if !w.finished {
        assert w.task in tasks && w.task.job == this;
        var v := w.Run();
        if tracked {
          w.task.RunStep(quit, ok);
          SeqPrefixStep(q, cs, k, ok);
          quit' := quit || RunQuits(quit, cs[k], ok);
        }
        visited' := visited + v;
      }
    }

    /** The shared stop flag, read off the first task. */
    ghost function JobStop(): bool
      reads this, tasks
    {
      tasks != [] && tasks[0].stop
    }

    /**
     * `clean`: deletes every worker but leaves them in `m_workers`, so the
     * job can no longer be cleaned: a second call would delete them again.
     */
    method Clean()
      requires Valid() && Cleanable()
      modifies workers
      ensures forall w :: w in workers ==> w.released && !w.running && w.finished == old(w.finished)
      ensures workers != [] ==> !Cleanable()
    {
      for k := 0 to |workers|
        invariant forall j :: 0 <= j < k ==> workers[j].released && !workers[j].running
        invariant forall j :: k <= j < |workers| ==> !workers[j].released
        invariant forall w :: w in workers ==> w.finished == old(w.finished)
      {
        workers[k].Release();
      }
      if workers != [] {
        assert workers[0] in workers && workers[0].released;
      }
    }

    /** The destructor deletes every task. */
    method Destroy()
      requires !tasksDeleted
      modifies this`tasksDeleted
      ensures tasksDeleted
    {
      tasksDeleted := true;
    }
  }

  /** The chunks of a sequence of tasks, in order. */
  ghost function Chunks(ts: seq<PlTask>): (cs: seq<Chunk>)
    ensures |cs| == |ts|
  {
    seq(|ts|, k requires 0 <= k < |ts| => ts[k].Span())
  }

  lemma ChunksSnoc(ts: seq<PlTask>, t: PlTask)
    ensures Chunks(ts + [t]) == Chunks(ts) + [t.Span()]
  {
    assert forall k :: 0 <= k < |ts| ==> (ts + [t])[k] == ts[k];
  }

  /**
   * `pl_task<T>`; `indexed` marks the `pl_task<size_t>` specialisation,
   * the only one whose `process` handles FOR.
   */
  class PlTask {
    const job: PlJob
    const taskType: TaskType
    const indexed: bool
    const start: nat
    const length: nat
    const data: seq<int>
    const callback: int -> bool
    var stop: bool

    constructor (job: PlJob, taskType: TaskType, start: nat, length: nat, data: seq<int>, callback: int -> bool, indexed: bool)
      ensures this.job == job && this.taskType == taskType && this.indexed == indexed
      ensures this.start == start && this.length == length
      ensures this.data == data && this.callback == callback
      ensures !stop
    {
      this.job := job;
      this.taskType := taskType;
      this.indexed := indexed;
      this.start := start;
      this.length := length;
      this.data := data;
      this.callback := callback;
      stop := false;
    }

    /** `stop()`. */
    method Stop()
      modifies this`stop
      ensures stop
    {
      stop := true;
    }

    /** Whether `process` walks the range: FOREACH always, FOR only in the `size_t` specialisation. */
    predicate Runs()
    {
      taskType == TaskForEach || (taskType == TaskFor && indexed)
    }

    function Span(): Chunk
    {
      Chunk(start, length)
    }

    /**
     * One run of this task is one step of running chunks in order: it calls
     * back the chunk's trace and leaves the shared stop where that step does.
     */
    lemma RunStep(stop0: bool, ok: nat -> bool)
      requires Runs() && Answer() == ok
      ensures Trace(stop0) == RunTrace(stop0, Span(), ok)
      ensures (stop0 || RunQuits(stop0, Span(), ok)) == (CallsForceQuit(stop0) || stop0)
    {
    }

    function Answer(): nat -> bool
    {
      Answers(taskType, data, callback)
    }

    /** A FOREACH task reads `data[i]` for the indices it visits. */
    predicate InBounds()
    {
      taskType == TaskForEach && length > 0 ==> start + length <= |data|
    }

    /** The indices `process` calls back at, given the stop flag on entry. */
    ghost function Trace(stop0: bool): seq<nat>
    {
      if Runs() then RunTrace(stop0, Chunk(start, length), Answer()) else []
    }

    /** Whether `process` calls `m_job->force_quit()`, given the stop flag on entry. */
    ghost predicate CallsForceQuit(stop0: bool)
    {
      Runs() && ((stop0 && length > 0) || (!stop0 && Quits(Answer(), start, start + length)))
    }

    /**
     * `process`: walk [start, start + length) upwards, testing the stop flag
     * before each callback; at the first set flag or `false` answer call the
     * job's `force_quit` once and leave. `quitCalls` counts those calls.
     */
    method Process() returns (visited: seq<nat>, quitCalls: nat)
      requires InBounds()
      modifies job.tasks
      ensures visited == Trace(old(stop))
      ensures quitCalls == if CallsForceQuit(old(stop)) then 1 else 0
      ensures forall t :: t in job.tasks ==> t.stop == (old(t.stop) || CallsForceQuit(old(stop)))
    {
      visited, quitCalls := [], 0;
      if !Runs() {
        return;
      }
      var quit;
      visited, quit := Walk();
      if quit {
        job.ForceQuit();
        quitCalls := 1;
      }
    }

    /**
     * The loop of `process`: the indices it calls back, and whether it
     * leaves through the `force_quit` call, on a set stop flag or on the
     * first `false` answer.
     */
    method Walk() returns (visited: seq<nat>, quit: bool)
      requires InBounds() && Runs()
      ensures visited == Trace(stop)
      ensures quit == CallsForceQuit(stop)
    {
      var ok := Answer();
      visited, quit := [], false;
      var i := start;
      while i < start + length
        invariant start <= i <= start + length
        invariant stop ==> i == start
        invariant visited == Range(start, i)
        invariant forall j: nat :: start <= j < i ==> ok(j)
      {
        if stop {
          quit := true;
          return;
        }
        visited := visited + [i];
        if !(if taskType == TaskForEach then callback(data[i]) else callback(i)) {
          assert !ok(i);
          ScanStopsAt(ok, start, i, start + length);
          quit := true;
          return;
        }
        RangeSnoc(start, i);
        i := i + 1;
      }
      ScanCompletes(ok, start, start + length);
    }
  }

  /**
   * `pl_worker` stripped of its thread: the flags of the re-arm protocol and
   * one pass of its work loop.
   */
  class PlWorker {
    const parent: PlJob
    const task: PlTask
    var finished: bool
    var running: bool
    /** Set when the worker is deleted. */
    var released: bool

    constructor (parent: PlJob, task: PlTask)
      ensures this.parent == parent && this.task == task
      ensures !finished && running && !released
    {
      this.parent := parent;
      this.task := task;
      finished := false;
      running := true;
      released := false;
    }

    /** `restart`. */
    method Restart()
      modifies this`finished
      ensures !finished
    {
      finished := false;
    }

    /** One pass of the work loop: run the bound task, then report `finished`. */
    method Run() returns (visited: seq<nat>)
      requires task.InBounds()
      modifies this`finished, task.job.tasks
      ensures finished
      ensures visited == task.Trace(old(task.stop))
      ensures forall t :: t in task.job.tasks ==> t.stop == (old(t.stop) || task.CallsForceQuit(old(task.stop)))
    {
      finished := false;
      var quitCalls;
      visited, quitCalls := task.Process();
      finished := true;
    }

    /** The destructor: stop the loop for good; the object is gone afterwards. */
    method Release()
      requires !released
      modifies this`running, this`released
      ensures !running && released
    {
      running := false;
      released := true;
    }
  }
}
