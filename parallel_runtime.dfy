/**
 * The static `parallel` class of the parallel/ revision (parallel/parallel.hpp,
 * parallel/parallel.cpp): the thread count, the worker array, `init`, `clean`,
 * `create_job` and its two entry points.
 *
 * Threads are sequential: after `create_job` has pushed job i onto worker i,
 * its wait for every job to finish is modelled by draining the workers in
 * index order, which is one order the real threads may take. The hardware
 * thread count is a parameter.
 */
module ParallelRuntime {
  import opened Scan
  import opened Cores
  import opened Planner
  import opened ParallelWorkers

  /**
   * When no job of the plan starts past the end of the range, the jobs of
   * `create_job` call back what one loop over [start, start + size) would:
   * every index up to the first `false` answer, once each, ascending.
   */
  lemma ParTraceCovers(start: nat, size: nat, threads: nat, ok: nat -> bool)
    requires NoJobPastEnd(size, threads)
    ensures SeqTrace(false, ParPlanAsWritten(start, size, threads), ok) == Range(start, start + ScanLength(ok, start, start + size))
  {
    GivenIsProduct(threads - 1, CeilDiv(size, threads));
    ParPlanAgrees(start, size, threads);
    ParPlanTiles(start, size, threads);
    SeqTraceOfTiles(ParPlan(start, size, threads), start, start + size, ok);
  }

  /** ParTraceCovers for a trace `create_job` returned, when `init` has run. */
  lemma TraceCoversUnlessPastEnd(visited: seq<nat>, start: nat, size: nat, n: uint32, ok: nat -> bool)
    requires n != Uninitialised ==> visited == SeqTrace(false, ParPlanAsWritten(start, size, n), ok)
    ensures n != Uninitialised && NoJobPastEnd(size, n) ==> visited == Range(start, start + ScanLength(ok, start, start + size))
  {
    if n != Uninitialised && NoJobPastEnd(size, n) {
      ParTraceCovers(start, size, n, ok);
    }
  }

  /**
   * No job of the plan starts past the end of the range: there is a thread,
   * `size` fits a `size_t`, and the last job starts at most `size` in.
   */
  ghost predicate NoJobPastEnd(size: nat, n: nat)
  {
    n >= 1 && size < SizeModulus && Given(n - 1, ParPerCore(size, n)) <= size
  }

  /** The library state: `n_threads` and the array `threads`. */
  class Runtime {
    var nThreads: uint32
    var threads: array?<ParallelWorker?>

    /** The static initialisers: `n_threads` is -1 and `threads` null. */
    constructor ()
      ensures nThreads == Uninitialised && threads == null
    {
      nThreads := Uninitialised;
      threads := null;
    }

    /** The worker slots of the array. */
    ghost function Workers(): seq<ParallelWorker?>
      reads this, threads
    {
      if threads == null then [] else threads[..]
    }

    /** `threads[0..n_threads)` are distinct running workers with empty queues. */
    ghost predicate Ready()
      reads this, threads, Workers()
    {
      threads != null && threads.Length == nThreads && Idle(threads[..])
    }

    /**
     * `init`: mark the library uninitialised, resolve the policy, store the
     * count and fill a new array with that many new workers.
     */
    method Init(policy: ParallelCores, custom: uint32, physical: uint32)
      modifies this
      ensures nThreads == ResolveParallel(policy, physical, custom)
      ensures fresh(threads) && Ready()
      ensures forall i :: 0 <= i < threads.Length ==> fresh(threads[i])
    {
      nThreads := Uninitialised;
      var finalCore := ResolveParallel(policy, physical, custom);
      nThreads := finalCore;
      var ts := new ParallelWorker?[nThreads];
      threads := ts;
      var i: nat := 0;
      while i < finalCore
        invariant i <= finalCore == nThreads == ts.Length
        invariant threads == ts
        invariant forall k :: 0 <= k < i ==> ts[k] != null && fresh(ts[k]) && ts[k].running && ts[k].jobs == []
        invariant forall k, m :: 0 <= k < m < i ==> ts[k] != ts[m]
      {
        ts[i] := new ParallelWorker();
        i := i + 1;
      }
    }

    /**
     * `clean`: the array is dropped; `n_threads` keeps its value, so a later
     * `create_job` would index a null array. Freeing the workers is not
     * modelled.
     */
    method Clean()
      requires nThreads == 0 || (threads != null && nThreads <= threads.Length)
      modifies this`threads
      ensures threads == null && nThreads == old(nThreads)
    {
      threads := null;
    }

    /**
     * `create_job`: refuse to run before `init`; otherwise push job i, over
     * [start + i * per, ...) with the length as written, onto worker i for
     * every one of the `n_threads` workers, then wait for all of them. The
     * callbacks are those of the as-written plan run in worker order.
     */
    method CreateJob(start: nat, size: nat, data: Option<Memory>, callback: int -> bool) returns (visited: seq<nat>)
      requires nThreads != Uninitialised ==> Ready()
      modifies Workers()
      ensures nThreads == Uninitialised ==> visited == []
      ensures nThreads == Uninitialised ==> forall w :: w in Workers() && w != null ==> unchanged(w)
      ensures nThreads != Uninitialised ==>
        && Ready()
        && visited == SeqTrace(false, ParPlanAsWritten(start, size, nThreads), Answers(TypeFor(data), data, callback))
    {
      visited := [];
      if nThreads == Uninitialised {
        return;
      }
      var ws := threads[..];
      visited := RunJob(ws, start, size, data, callback);
      assert threads[..] == ws;
    }

    /**
     * `_for`: a job over [start, start + size) with a null data pointer, so
     * every job is FOR. Unless some job of the plan starts past the end of
     * the range, the callbacks are those of one loop over the range.
     */
    method For(start: nat, size: nat, callback: int -> bool) returns (visited: seq<nat>)
      requires nThreads != Uninitialised ==> Ready()
      modifies Workers()
      ensures nThreads == Uninitialised ==> visited == []
      ensures nThreads == Uninitialised ==> forall w :: w in Workers() && w != null ==> unchanged(w)
      ensures nThreads != Uninitialised ==>
        && Ready()
        && visited == SeqTrace(false, ParPlanAsWritten(start, size, nThreads), Answers(JobFor, None, callback))
      ensures nThreads != Uninitialised && NoJobPastEnd(size, nThreads) ==>
        visited == Range(start, start + ScanLength(Answers(JobFor, None, callback), start, start + size))
    {
      visited := CreateJob(start, size, None, callback);
      TraceCoversUnlessPastEnd(visited, start, size, nThreads, Answers(JobFor, None, callback));
    }

    /**
     * `_foreach`: a job over data[0..size), so every job is FOREACH and the
     * callback is given elements. Unless some job of the plan starts past
     * the end of the range, the callbacks are those of one loop over the
     * range and, for an array of at least `size` elements, every read stays
     * inside it; ForEachReadsPastData shows the other case.
     */
    method ForEach(data: seq<int>, past: nat -> int, size: nat, callback: int -> bool) returns (visited: seq<nat>)
      requires nThreads != Uninitialised ==> Ready()
      modifies Workers()
      ensures nThreads == Uninitialised ==> visited == []
      ensures nThreads == Uninitialised ==> forall w :: w in Workers() && w != null ==> unchanged(w)
      ensures nThreads != Uninitialised ==>
        && Ready()
        && visited == SeqTrace(false, ParPlanAsWritten(0, size, nThreads), Answers(JobForEach, Some(Memory(data, past)), callback))
      ensures nThreads != Uninitialised && NoJobPastEnd(size, nThreads) ==>
        && visited == Range(0, ScanLength(Answers(JobForEach, Some(Memory(data, past)), callback), 0, size))
        && (size <= |data| ==> forall i :: i in visited ==> i < |data|)
    {
      visited := CreateJob(0, size, Some(Memory(data, past)), callback);
      TraceWithinUnlessPastEnd(visited, 0, size, nThreads, Answers(JobForEach, Some(Memory(data, past)), callback), |data|);
    }
  }

  /**
   * TraceCoversUnlessPastEnd for a trace over data of n elements: when the
   * range lies in the data, so does every index visited.
   */
  lemma TraceWithinUnlessPastEnd(visited: seq<nat>, start: nat, size: nat, threads: uint32, ok: nat -> bool, n: nat)
    requires threads != Uninitialised ==> visited == SeqTrace(false, ParPlanAsWritten(start, size, threads), ok)
    ensures threads != Uninitialised && NoJobPastEnd(size, threads) ==>
      && visited == Range(start, start + ScanLength(ok, start, start + size))
      && (start + size <= n ==> forall i :: i in visited ==> i < n)
  {
    TraceCoversUnlessPastEnd(visited, start, size, threads, ok);
    if threads != Uninitialised && NoJobPastEnd(size, threads) && start + size <= n {
      RangeWithin(visited, ok, start, start + size, n);
    }
  }

  /** One loop over [lo, hi) visits no index past n elements when hi <= n. */
  lemma RangeWithin(visited: seq<nat>, ok: nat -> bool, lo: nat, hi: nat, n: nat)
    requires lo <= hi <= n && visited == Range(lo, lo + ScanLength(ok, lo, hi))
    ensures forall i :: i in visited ==> i < n
  {
    ScanStopsAtFirstFalse(ok, lo, hi);
    RangeMembers(lo, lo + ScanLength(ok, lo, hi));
  }

  /**
   * `_foreach` over one element on three threads: the wrapped job 2 is run
   * and, with a callback that always answers true, reads `data[2]`, past the
   * one-element array, whatever lies there.
   */
  lemma ForEachReadsPastData(x: int, past: nat -> int, callback: int -> bool)
    requires forall v :: callback(v)
    ensures var visited := SeqTrace(false, ParPlanAsWritten(0, 1, 3), Answers(JobForEach, Some(Memory([x], past)), callback));
      2 in visited && 2 >= |[x]|
  {
    ParPlanUnderflowRunsPastEnd(Answers(JobForEach, Some(Memory([x], past)), callback));
  }

  /**
   * `wait_jobs_finish`: nothing to wait for without a parent; otherwise
   * return once every job of the parent has finished. Sequentially, the jobs
   * still pending are run here, in list order. The timeout only paces the
   * re-checks of the real wait and has no counterpart. This models code
   * no entry point reaches: `create_job` waits on its own local job list and
   * never adds a job to `parent->jobs`, which stays empty.
   */
  method WaitJobsFinish(parent: JobParent?) returns (visited: seq<nat>)
    requires parent != null ==> forall j :: j in parent.jobs ==> j.parent == parent
    modifies parent, if parent == null then [] else parent.jobs
    ensures parent == null ==> visited == []
    ensures parent != null ==> parent.jobs == old(parent.jobs) && parent.HasFinished()
  {
    visited := [];
    if parent == null {
      return;
    }
    var k := 0;
    while k < |parent.jobs|
      invariant k <= |parent.jobs| && parent.jobs == old(parent.jobs)
      invariant forall m :: 0 <= m < k ==> parent.jobs[m].finished
    {
      var j := parent.jobs[k];
      if !j.finished {
        var v := j.Process();
        visited := visited + v;
      }
      k := k + 1;
    }
  }

  /** `create_job` past its guard, over the workers `threads[0..n_threads)`. */
  method RunJob(ws: seq<ParallelWorker?>, start: nat, size: nat, data: Option<Memory>, callback: int -> bool) returns (visited: seq<nat>)
    requires Idle(ws)
    modifies ws
    ensures Idle(ws)
    ensures visited == SeqTrace(false, ParPlanAsWritten(start, size, |ws|), Answers(TypeFor(data), data, callback))
  {
    var parent := new JobParent();
    var per := ParPerCore(size, |ws|);
    ghost var plan := ParPlanAsWritten(start, size, |ws|);
    PlanByJob(start, size, |ws|);
    var jobs := Dispatch(ws, parent, start, size, per, data, callback, plan);
    ghost var ok := Answers(TypeFor(data), data, callback);
    assert forall k :: 0 <= k < |jobs| ==> Planned(jobs[k], parent, plan[k], data, callback);
    assert forall k :: 0 <= k < |jobs| ==> Runs(jobs[k], parent, plan[k], ok);
    visited := Collect(ws, jobs, parent, plan, ok);
  }

  /** No worker is held twice. */
  ghost predicate Distinct<T>(xs: seq<T>)
  {
    forall k, m :: 0 <= k < m < |xs| ==> xs[k] != xs[m]
  }

  /** Distinct running workers with empty queues. */
  ghost predicate Idle(ws: seq<ParallelWorker?>)
    reads ws
  {
    && Distinct(ws)
    && (forall k :: 0 <= k < |ws| ==> ws[k] != null && ws[k].running && ws[k].jobs == [])
  }

  /** Jobs 0..i-1 are made, unfinished and distinct, and job k is queued alone on worker k. */
  ghost predicate Pushed(ws: seq<ParallelWorker?>, jobs: seq<ParallelJob>, i: nat)
    reads ws, jobs
  {
    && |jobs| == i <= |ws|
    && Distinct(jobs)
    && (forall k :: 0 <= k < |ws| ==> ws[k] != null && ws[k].running && ws[k].jobs == (if k < i then [jobs[k]] else []))
    && (forall k :: 0 <= k < i ==> !jobs[k].finished)
  }

  /** Workers 0..i-1 have run their job; the later ones still hold theirs. */
  ghost predicate Drained(ws: seq<ParallelWorker?>, jobs: seq<ParallelJob>, i: nat, parent: JobParent,
                          plan: seq<Chunk>, ok: nat -> bool, visited: seq<nat>)
    reads ws, jobs, parent
  {
    && i <= |jobs| == |ws| == |plan|
    && (forall k :: 0 <= k < |ws| ==> ws[k] != null && ws[k].running && ws[k].jobs == (if k < i then [] else [jobs[k]]))
    && (forall k :: i <= k < |jobs| ==> !jobs[k].finished)
    && visited == SeqTrace(false, plan[..i], ok)
    && parent.forceQuit == SeqQuit(false, plan[..i], ok)
  }

  /** The first loop of `create_job`: job i goes onto worker i. */
  method Dispatch(ws: seq<ParallelWorker?>, parent: JobParent, start: nat, size: nat, per: nat,
                  data: Option<Memory>, callback: int -> bool, ghost plan: seq<Chunk>) returns (jobs: seq<ParallelJob>)
    requires Idle(ws) && Layout(ws, plan, start, size, per)
    modifies ws
    ensures Pushed(ws, jobs, |ws|)
    ensures forall k :: 0 <= k < |jobs| ==> fresh(jobs[k])
    ensures AllPlanned(jobs, parent, plan, data, callback)
  {
    jobs := [];
    var given := 0;
    for i := 0 to |ws|
      invariant given == Given(i, per)
      invariant forall k :: 0 <= k < |jobs| ==> fresh(jobs[k])
      invariant Pushed(ws, jobs, i) && AllPlanned(jobs, parent, plan, data, callback)
    {
      jobs, given := DispatchNext(ws, jobs, i, given, start, size, per, data, callback, parent, plan);
    }
  }

  /**
   * What the first loop works from: distinct workers, one planned chunk per
   * worker, job k's chunk being the one after k slices of `per`.
   */
  ghost predicate Layout(ws: seq<ParallelWorker?>, plan: seq<Chunk>, start: nat, size: nat, per: nat)
  {
    && Distinct(ws) && |plan| == |ws|
    && (forall k :: 0 <= k < |plan| ==> plan[k] == JobChunk(start, size, per, k))
  }

  /** Every job made so far is the planned job of its index. */
  ghost predicate AllPlanned(jobs: seq<ParallelJob>, parent: JobParent, plan: seq<Chunk>, data: Option<Memory>, callback: int -> bool)
  {
    |jobs| <= |plan| && forall k :: 0 <= k < |jobs| ==> Planned(jobs[k], parent, plan[k], data, callback)
  }

  /** One turn of the first loop: make job i, push it onto worker i, and give out `per` more indices. */
  method DispatchNext(ws: seq<ParallelWorker?>, jobs: seq<ParallelJob>, i: nat, given: nat, start: nat, size: nat, per: nat,
                      data: Option<Memory>, callback: int -> bool, parent: JobParent, ghost plan: seq<Chunk>)
      returns (next: seq<ParallelJob>, given': nat)
    requires Layout(ws, plan, start, size, per) && i < |ws| && given == Given(i, per)
    requires Pushed(ws, jobs, i) && AllPlanned(jobs, parent, plan, data, callback)
    modifies ws[i]
    ensures Pushed(ws, next, i + 1) && AllPlanned(next, parent, plan, data, callback)
    ensures next == jobs + [next[i]] && fresh(next[i]) && given' == Given(i + 1, per)
  {
    var job := MakeJob(start, size, per, i, given, data, callback, parent, plan[i]);
    PushNext(ws, jobs, i, job);
    next := jobs + [job];
    given' := given + per;
  }

  /** `given` after i turns of the first loop: i slices of per indices. */
  function Given(i: nat, per: nat): nat
  {
    if i == 0 then 0 else Given(i - 1, per) + per
  }

  lemma {:induction false} GivenIsProduct(i: nat, per: nat)
    ensures Given(i, per) == i * per
  {
    if i > 0 {
      GivenIsProduct(i - 1, per);
      MulStep(i - 1, per);
    }
  }

  /** Job k of the first loop: `given` is k slices of `per` by then, and the length is as written. */
  ghost function JobChunk(start: nat, size: nat, per: nat, k: nat): Chunk
  {
    Chunk(start + Given(k, per), ParLengthAsWritten(size, per, Given(k, per)))
  }

  /** The as-written plan is the jobs of the first loop, in order. */
  lemma PlanByJob(start: nat, size: nat, n: nat)
    ensures forall k :: 0 <= k < n ==> ParPlanAsWritten(start, size, n)[k] == JobChunk(start, size, ParPerCore(size, n), k)
  {
    var per := ParPerCore(size, n);
    forall k | 0 <= k < n
      ensures ParPlanAsWritten(start, size, n)[k] == JobChunk(start, size, per, k)
    {
      GivenIsProduct(k, per);
    }
  }

  /** The job of one turn of the first loop, over [given + start, ...) with the length as written. */
  method MakeJob(start: nat, size: nat, per: nat, i: nat, given: nat, data: Option<Memory>, callback: int -> bool,
                 parent: JobParent, ghost c: Chunk) returns (job: ParallelJob)
    requires given == Given(i, per) && c == JobChunk(start, size, per, i)
    ensures fresh(job) && !job.finished
    ensures Planned(job, parent, c, data, callback)
  {
    job := new ParallelJob(data, given + start, if per + given > size then WrapSize(size - given) else per, callback, parent);
  }

  /** One turn of the first loop: the new job goes onto worker i. */
  method PushNext(ws: seq<ParallelWorker?>, jobs: seq<ParallelJob>, i: nat, job: ParallelJob)
    requires Pushed(ws, jobs, i) && i < |ws| && Distinct(ws)
    requires job !in jobs && !job.finished
    modifies ws[i]
    ensures Pushed(ws, jobs + [job], i + 1)
  {
    ws[i].Push(job);
  }

  /** The wait of `create_job`, sequentialised: each worker drains its one job, in order. */
  method Collect(ws: seq<ParallelWorker?>, jobs: seq<ParallelJob>, parent: JobParent, ghost plan: seq<Chunk>, ghost ok: nat -> bool)
      returns (visited: seq<nat>)
    requires Pushed(ws, jobs, |ws|) && Distinct(ws) && |plan| == |jobs| && !parent.forceQuit
    requires forall k :: 0 <= k < |jobs| ==> Runs(jobs[k], parent, plan[k], ok)
    modifies ws, jobs, parent
    ensures Idle(ws)
    ensures visited == SeqTrace(false, plan, ok)
  {
    visited := [];
    var i: nat := 0;
    assert plan[..0] == [];
    while i < |jobs|
      invariant Drained(ws, jobs, i, parent, plan, ok, visited)
    {
      visited := DrainNext(ws, jobs, parent, plan, ok, i, visited);
      i := i + 1;
    }
    assert plan[..i] == plan;
  }

  /** One turn of the wait: worker i runs its job, after workers 0..i-1. */
  method DrainNext(ws: seq<ParallelWorker?>, jobs: seq<ParallelJob>, parent: JobParent, ghost plan: seq<Chunk>, ghost ok: nat -> bool,
                   i: nat, visited: seq<nat>) returns (next: seq<nat>)
    requires Drained(ws, jobs, i, parent, plan, ok, visited) && i < |jobs|
    requires Distinct(ws) && Distinct(jobs)
    requires forall k :: 0 <= k < |jobs| ==> Runs(jobs[k], parent, plan[k], ok)
    modifies ws[i], jobs[i], parent
    ensures Drained(ws, jobs, i + 1, parent, plan, ok, next)
  {
    ghost var quit := parent.forceQuit;
    assert Runs(jobs[i], parent, plan[i], ok);
    var v := DrainOne(ws[i], jobs[i]);
    TraceStep(visited, v, quit, plan, i, ok);
    next := visited + v;
  }

  /** A job as `create_job` makes it: of the type its data calls for, over the planned chunk. */
  ghost predicate Planned(job: ParallelJob, parent: JobParent, c: Chunk, data: Option<Memory>, callback: int -> bool)
  {
    && job.parent == parent
    && job.jobType == TypeFor(data) && job.data == data && job.callback == callback
    && job.Span() == c
  }

  /** A job that calls back over chunk c with answers ok, under the given parent. */
  ghost predicate Runs(job: ParallelJob, parent: JobParent, c: Chunk, ok: nat -> bool)
  {
    job.parent == parent && job.jobType != JobUndefined && job.Span() == c && job.Answer() == ok
  }

  /** One more job run after the first i: the trace and the stop flag of the first i + 1. */
  lemma TraceStep(visited: seq<nat>, v: seq<nat>, quit: bool, plan: seq<Chunk>, i: nat, ok: nat -> bool)
    requires i < |plan|
    requires visited == SeqTrace(false, plan[..i], ok) && quit == SeqQuit(false, plan[..i], ok)
    ensures v == RunTrace(quit, plan[i], ok) ==> visited + v == SeqTrace(false, plan[..i + 1], ok)
    ensures (quit || RunQuits(quit, plan[i], ok)) == SeqQuit(false, plan[..i + 1], ok)
  {
    SeqPrefixStep(false, plan, i, ok);
  }

  /** A worker whose queue holds one job drains it: `process` once, then the erase. */
  method DrainOne(w: ParallelWorker, job: ParallelJob) returns (visited: seq<nat>)
    requires w.jobs == [job] && job.jobType != JobUndefined
    modifies w`jobs, job, job.parent
    ensures w.jobs == [] && job.finished
    ensures visited == RunTrace(old(job.finished || job.parent.forceQuit), job.Span(), job.Answer())
    ensures job.parent.forceQuit == (old(job.parent.forceQuit) || RunQuits(old(job.finished || job.parent.forceQuit), job.Span(), job.Answer()))
  {
    assert Parents(w.jobs) == {job.parent};
    visited := w.Drain();
  }
}
