/**
 * Jobs, job parents and workers of the parallel/ revision (parallel/worker.hpp,
 * parallel/worker.cpp, and src/worker.cpp, which is the same code with an
 * atomic `finished`).
 *
 * Worker threads are sequential here: a worker's queue is drained when the
 * model says so, and locks and notifications are gone. The element type is
 * fixed to `int`; a null data pointer is `None`, and a non-null one is the
 * Memory it reaches.
 */
module ParallelWorkers {
  import opened Scan

  /** `parallel_job_type`. */
  datatype JobType = JobUndefined | JobFor | JobForEach

  /**
   * What a non-null `T*` reaches: the caller's elements, then whatever lies
   * past them, which an index beyond the array reads.
   */
  datatype Memory = Memory(elems: seq<int>, past: nat -> int)

  /** `data[i]`: an element of the array, or the memory past it. */
  function Read(m: Memory, i: nat): int
  {
    if i < |m.elems| then m.elems[i] else m.past(i)
  }

  const IntModulus: int := 0x1_0000_0000

  /**
   * The `size_t` index `i + start` converted to the callback's `int`
   * parameter: reduced modulo 2^32 into the two's-complement range.
   */
  function NarrowToInt(i: nat): int
    decreases i
  {
    if i < 0x8000_0000 then i
    else if i < IntModulus then i - IntModulus
    else NarrowToInt(i - IntModulus)
  }

  /**
   * The narrowed index is the `int` of the two's-complement range that is
   * congruent to the index modulo 2^32, and small indices pass unchanged.
   */
  lemma {:induction false} NarrowToIntCongruent(i: nat)
    ensures -0x8000_0000 <= NarrowToInt(i) < 0x8000_0000
    ensures (i - NarrowToInt(i)) % IntModulus == 0
    ensures i < 0x8000_0000 ==> NarrowToInt(i) == i
    decreases i
  {
    if i >= IntModulus {
      NarrowToIntCongruent(i - IntModulus);
    }
  }

  /**
   * What the callback answers at index i: a FOR job passes the index,
   * narrowed to `int`; a FOREACH job passes `data[i]`, wherever that lies.
   */
  function AnswerAt(jobType: JobType, data: Option<Memory>, callback: int -> bool, i: nat): bool
  {
    if jobType == JobForEach && data.Some? then callback(Read(data.value, i)) else callback(NarrowToInt(i))
  }

  /** Index 3000000000 of a FOR job reaches the callback as a negative `int`. */
  lemma ForIndexNarrows(callback: int -> bool)
    ensures AnswerAt(JobFor, None, callback, 3000000000) == callback(3000000000 - IntModulus)
    ensures NarrowToInt(3000000000) < 0
  {
  }

  /** AnswerAt at every index. */
  function Answers(jobType: JobType, data: Option<Memory>, callback: int -> bool): nat -> bool
  {
    (i: nat) => AnswerAt(jobType, data, callback, i)
  }

  /** The job type the `parallel_job` constructor picks: FOR for a null data pointer, FOREACH otherwise. */
  function TypeFor(data: Option<Memory>): (t: JobType)
    ensures t != JobUndefined
    ensures t == JobFor <==> data.None?
  {
    if data.None? then JobFor else JobForEach
  }

  /** `parallel_job_parent`: the force-quit flag and the jobs it watches. */
  class JobParent {
    var forceQuit: bool
    var jobs: seq<ParallelJob>

    constructor ()
      ensures !forceQuit && jobs == []
    {
      forceQuit := false;
      jobs := [];
    }

    /** `force_quit`: raise the flag; nothing to do if it is already up. `should_force_quit` then reports it. */
    method ForceQuit()
      modifies this`forceQuit
      ensures ShouldForceQuit()
    {
      if forceQuit {
        return;
      }
      forceQuit := true;
    }

    /** `should_force_quit`. */
    function ShouldForceQuit(): bool
      reads this
    {
      forceQuit
    }

    /** `has_finished`: every job of the parent has finished. */
    function HasFinished(): (r: bool)
      reads this, jobs
      ensures r <==> forall j :: j in jobs ==> j.finished
    {
      AllFinished(jobs)
    }
  }

  /** `std::all_of` over the jobs' `finished` flags. */
  function AllFinished(js: seq<ParallelJob>): (r: bool)
    reads js
    ensures r <==> forall j :: j in js ==> j.finished
    ensures js == [] ==> r
  {
    if js == [] then true else js[0].finished && AllFinished(js[1..])
  }

  /** `parallel_job<T>`, with the fields of `parallel_job_base`. */
  class ParallelJob {
    const jobType: JobType
    const parent: JobParent
    const start: nat
    const size: nat
    const data: Option<Memory>
    const callback: int -> bool
    var finished: bool

    /** The `parallel_job` constructor over the base constructor, which stores start, size, type and parent as given. */
    constructor (data: Option<Memory>, start: nat, size: nat, callback: int -> bool, parent: JobParent)
      ensures jobType == TypeFor(data) && this.parent == parent
      ensures this.start == start && this.size == size
      ensures this.data == data && this.callback == callback
      ensures !finished
    {
      jobType := TypeFor(data);
      this.parent := parent;
      this.start := start;
      this.size := size;
      this.data := data;
      this.callback := callback;
      finished := false;
    }

    function Span(): Chunk
    {
      Chunk(start, size)
    }

    function Answer(): nat -> bool
    {
      Answers(jobType, data, callback)
    }

    /** The indices `process` calls back at, given whether it must stop on entry. */
    ghost function Trace(stop0: bool): seq<nat>
    {
      if jobType == JobUndefined then [] else RunTrace(stop0, Span(), Answer())
    }

    /** Whether `process` raises the parent's force-quit, given whether it must stop on entry. */
    ghost predicate RaisesQuit(stop0: bool)
    {
      jobType != JobUndefined && RunQuits(stop0, Span(), Answer())
    }

    /**
     * `process`: walk start, start + 1, ... below start + size, leaving at
     * the first index that finds `finished` or the parent's force-quit set;
     * a `false` answer raises the force-quit, so the walk stops before the
     * next index. An UNDEFINED job calls nothing. In every case the job ends
     * finished. A FOREACH job reads `data[i]` for every index it visits,
     * past the caller's array too when its chunk reaches beyond it.
     */
    method Process() returns (visited: seq<nat>)
      modifies this`finished, parent`forceQuit
      ensures finished
      ensures visited == Trace(old(finished || parent.forceQuit))
      ensures parent.forceQuit == (old(parent.forceQuit) || RaisesQuit(old(finished || parent.forceQuit)))
    {
      visited := [];
      if jobType == JobUndefined {
        finished := true;
        return;
      }
      var ok := Answer();
      ghost var stop0 := finished || parent.forceQuit;
      var i: nat := 0;
      while i < size
        invariant i <= size
        invariant finished == old(finished)
        invariant stop0 ==> i == 0 && parent.forceQuit == old(parent.forceQuit)
        invariant visited == Range(start, start + i)
        invariant !stop0 && !parent.forceQuit ==> forall j: nat :: start <= j < start + i ==> ok(j)
        invariant !stop0 && parent.forceQuit ==>
          i > 0 && !ok(start + i - 1) && forall j: nat :: start <= j < start + i - 1 ==> ok(j)
      {
        if finished || parent.ShouldForceQuit() {
          break;
        }
        RangeSnoc(start, start + i);
        visited := visited + [start + i];
        if !AnswerAt(jobType, data, callback, start + i) {
          assert !ok(start + i);
          parent.ForceQuit();
        }
        i := i + 1;
      }
      if !stop0 {
        ScanExit(ok, start, size, i, parent.forceQuit);
      }
      finished := true;
    }

    /** The base class's `process`: only reports finished. */
    method BaseProcess()
      modifies this`finished
      ensures finished
    {
      finished := true;
    }
  }

  /** The parents of a list of jobs. */
  ghost function Parents(js: seq<ParallelJob>): set<JobParent>
  {
    set j | j in js :: j.parent
  }

  /** `parallel_worker` without its thread: the `running` flag and the job queue. */
  class ParallelWorker {
    var running: bool
    var jobs: seq<ParallelJob>

    /** The constructor; the thread it starts is not modelled. */
    constructor ()
      ensures running && jobs == []
    {
      running := true;
      jobs := [];
    }

    /** `jobs.push_back`. */
    method Push(job: ParallelJob)
      modifies this`jobs
      ensures jobs == old(jobs) + [job]
    {
      jobs := jobs + [job];
    }

    /**
     * The inner loop of `worker()`: process the front job, then erase it
     * (the first occurrence of that job is the front), until the queue is
     * empty. Every queued job is processed, front first; a queue of one job
     * calls back what that job's `process` does.
     */
    method Drain() returns (visited: seq<nat>)
      modifies this`jobs, jobs, Parents(jobs)
      ensures jobs == []
      ensures forall j :: j in old(jobs) ==> j.finished
      ensures |old(jobs)| == 1 ==>
        && visited == old(jobs)[0].Trace(old(jobs[0].finished || jobs[0].parent.forceQuit))
        && old(jobs)[0].parent.forceQuit ==
           (old(jobs[0].parent.forceQuit) || old(jobs)[0].RaisesQuit(old(jobs[0].finished || jobs[0].parent.forceQuit)))
    {
      ghost var queue := jobs;
      ghost var k := 0;
      visited := [];
      while jobs != []
        invariant 0 <= k <= |queue| && jobs == queue[k..]
        invariant forall j :: 0 <= j < k ==> queue[j].finished
        invariant |queue| == 1 && k == 0 ==> visited == [] && unchanged(queue[0], queue[0].parent)
        invariant |queue| == 1 && k == 1 ==>
          && visited == queue[0].Trace(old(queue[0].finished || queue[0].parent.forceQuit))
          && queue[0].parent.forceQuit ==
             (old(queue[0].parent.forceQuit) || queue[0].RaisesQuit(old(queue[0].finished || queue[0].parent.forceQuit)))
        decreases |jobs|
      {
        var j := jobs[0];
        var v := j.Process();
        visited := visited + v;
        jobs := jobs[1..];
        k := k + 1;
      }
    }

    /**
     * The destructor: clear `running`; the thread, woken, drains what is
     * still queued before it leaves its loop; the list ends empty.
     */
    method Destroy() returns (visited: seq<nat>)
      modifies this, jobs, Parents(jobs)
      ensures !running && jobs == []
      ensures forall j :: j in old(jobs) ==> j.finished
    {
      running := false;
      visited := Drain();
      jobs := [];
    }
  }
}
