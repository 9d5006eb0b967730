/**
 * The chunk planners of the two revisions: how `create_job` splits
 * [start, start + size) into one chunk per core.
 *
 * Both take ceil(size / cores) indices per chunk (the source computes it in
 * floating point; here it is exact integer division). The include/pl planner
 * stops once the range is covered; the parallel/ planner always emits one job
 * per thread and clips the length with a `size_t` subtraction that can go
 * below zero.
 */
module Planner {
  import opened Scan

  /** 2^64: `size_t` arithmetic is modulo this. */
  const SizeModulus: nat := 0x1_0000_0000_0000_0000

  function CeilDiv(a: nat, b: nat): (q: nat)
    requires b > 0
    ensures q * b >= a
    ensures q == 0 || (q - 1) * b < a
  {
    var q := (a + b - 1) / b;
    assert q * b + (a + b - 1) % b == a + b - 1;
    q
  }

  /** Multiplication distributes over one more step, for the solver. */
  lemma MulStep(k: nat, per: nat)
    ensures (k + 1) * per == k * per + per
  {
  }

  lemma MulMono(j: nat, k: nat, per: nat)
    requires j <= k
    ensures j * per <= k * per
  {
  }

  // ---------------------------------------------------------------------------
  // include/pl/parallel.hpp
  // ---------------------------------------------------------------------------

  /**
   * The tasks `create_job` pushes from loop iteration `i` on, `given` being
   * `tasks_given` at that point and `per` being `tasks_per_core`.
   */
  function PlTasksFrom(start: nat, size: nat, per: nat, cores: nat, i: nat, given: nat): seq<Chunk>
    requires given <= size
    decreases cores - i
  {
    if i >= cores then []
    else
      var task := Chunk(given + start, if per + given > size then size - given else per);
      if given + per >= size then [task]
      else [task] + PlTasksFrom(start, size, per, cores, i + 1, given + per)
  }

  /** `tasks_per_core`; with no cores it is never used, as the loop does not run. */
  function PlPerCore(size: nat, cores: nat): nat
  {
    if cores == 0 then 0 else CeilDiv(size, cores)
  }

  /** The chunks of the tasks `create_job` pushes, in order. */
  function PlPlan(start: nat, size: nat, cores: nat): seq<Chunk>
  {
    PlTasksFrom(start, size, PlPerCore(size, cores), cores, 0, 0)
  }

  /** Every task pushed from turn i on lies in what is left of the range. */
  lemma {:induction false} PlTasksFromWithin(start: nat, size: nat, per: nat, cores: nat, i: nat, given: nat)
    requires given <= size
    ensures forall c :: c in PlTasksFrom(start, size, per, cores, i, given) ==> start + given <= c.start && End(c) <= start + size
    decreases cores - i
  {
    if i < cores && given + per < size {
      PlTasksFromWithin(start, size, per, cores, i + 1, given + per);
    }
  }

  lemma {:induction false} PlTasksFromCount(start: nat, size: nat, per: nat, cores: nat, i: nat, given: nat)
    requires given <= size && i < cores
    ensures 1 <= |PlTasksFrom(start, size, per, cores, i, given)| <= cores - i
    decreases cores - i
  {
    if given + per < size && i + 1 < cores {
      PlTasksFromCount(start, size, per, cores, i + 1, given + per);
    }
  }

  lemma {:induction false} PlTasksFromStarts(start: nat, size: nat, per: nat, cores: nat, i: nat, given: nat)
    requires given <= size
    ensures forall k :: 0 <= k < |PlTasksFrom(start, size, per, cores, i, given)| ==>
      PlTasksFrom(start, size, per, cores, i, given)[k].start == start + given + k * per
    decreases cores - i
  {
    var r := PlTasksFrom(start, size, per, cores, i, given);
    if i < cores && given + per < size {
      PlTasksFromStarts(start, size, per, cores, i + 1, given + per);
      var rest := PlTasksFrom(start, size, per, cores, i + 1, given + per);
      assert r == [Chunk(given + start, per)] + rest;
      forall k | 1 <= k < |r|
        ensures r[k].start == start + given + k * per
      {
        assert r[k] == rest[k - 1];
        assert rest[k - 1].start == start + (given + per) + (k - 1) * per;
        MulStep(k - 1, per);
      }
    }
  }

  lemma {:induction false} PlTasksFromLengths(start: nat, size: nat, per: nat, cores: nat, i: nat, given: nat)
    requires given <= size && i < cores
    requires (cores - i) * per >= size - given
    ensures var r := PlTasksFrom(start, size, per, cores, i, given);
      && |r| >= 1
      && (forall k :: 0 <= k < |r| - 1 ==> r[k].length == per)
      && r[|r| - 1].length == size - given - (|r| - 1) * per
    decreases cores - i
  {
    var r := PlTasksFrom(start, size, per, cores, i, given);
    if given + per < size {
      MulStep(cores - i - 1, per);
      PlTasksFromLengths(start, size, per, cores, i + 1, given + per);
      var rest := PlTasksFrom(start, size, per, cores, i + 1, given + per);
      assert r[1..] == rest;
      MulStep(|rest| - 1, per);
    }
  }

  lemma {:induction false} PlTasksFromTiles(start: nat, size: nat, per: nat, cores: nat, i: nat, given: nat)
    requires given <= size && i < cores
    requires (cores - i) * per >= size - given
    ensures Tiles(PlTasksFrom(start, size, per, cores, i, given), start + given, start + size)
    decreases cores - i
  {
    var r := PlTasksFrom(start, size, per, cores, i, given);
    if given + per < size {
      MulStep(cores - i - 1, per);
      PlTasksFromTiles(start, size, per, cores, i + 1, given + per);
      assert r[1..] == PlTasksFrom(start, size, per, cores, i + 1, given + per);
    } else {
      assert r == [Chunk(given + start, size - given)];
      assert r[1..] == [];
    }
  }

  /**
   * The loop stops as soon as the range is given out, so while indices are
   * left every task it pushes has some.
   */
  lemma {:induction false} PlTasksFromNonEmpty(start: nat, size: nat, per: nat, cores: nat, i: nat, given: nat)
    requires given < size && per > 0
    ensures forall k :: 0 <= k < |PlTasksFrom(start, size, per, cores, i, given)| ==>
      PlTasksFrom(start, size, per, cores, i, given)[k].length > 0
    decreases cores - i
  {
    var r := PlTasksFrom(start, size, per, cores, i, given);
    if i < cores && given + per < size {
      PlTasksFromNonEmpty(start, size, per, cores, i + 1, given + per);
      assert r[1..] == PlTasksFrom(start, size, per, cores, i + 1, given + per);
    }
  }

  /**
   * The include/pl planner, for at least one core: between one and `cores`
   * chunks, the k-th starting at start + k * per, all of length `per` except
   * the last, which is clipped to what is left, none of them empty unless
   * the range is, and together they tile [start, start + size) exactly.
   */
  lemma PlPlanShape(start: nat, size: nat, cores: nat)
    requires cores >= 1
    ensures var r := PlPlan(start, size, cores);
      var per := CeilDiv(size, cores);
      && 1 <= |r| <= cores
      && (forall k :: 0 <= k < |r| ==> r[k].start == start + k * per)
      && (forall k :: 0 <= k < |r| - 1 ==> r[k].length == per)
      && r[|r| - 1].length == size - (|r| - 1) * per
      && (size > 0 ==> forall k :: 0 <= k < |r| ==> r[k].length > 0)
      && Tiles(r, start, start + size)
  {
    var per := CeilDiv(size, cores);
    if size > 0 {
      PlTasksFromNonEmpty(start, size, per, cores, 0, 0);
    }
    PlTasksFromCount(start, size, per, cores, 0, 0);
    PlTasksFromStarts(start, size, per, cores, 0, 0);
    PlTasksFromLengths(start, size, per, cores, 0, 0);
    PlTasksFromTiles(start, size, per, cores, 0, 0);
  }

  /** The coverage half of PlPlanShape: at least one task, and the tasks tile the range. */
  lemma PlPlanTiles(start: nat, size: nat, cores: nat)
    requires cores >= 1
    ensures 1 <= |PlPlan(start, size, cores)| && Tiles(PlPlan(start, size, cores), start, start + size)
  {
    var per := CeilDiv(size, cores);
    PlTasksFromCount(start, size, per, cores, 0, 0);
    PlTasksFromTiles(start, size, per, cores, 0, 0);
  }

  /** An empty range still yields one task, of length 0. */
  lemma PlPlanEmptyRange(start: nat, cores: nat)
    requires cores >= 1
    ensures PlPlan(start, 0, cores) == [Chunk(start, 0)]
  {
    assert CeilDiv(0, cores) == 0;
  }

  /** With no cores there is no task, so a non-empty range is not covered at all. */
  lemma PlPlanNoCores(start: nat, size: nat)
    requires size > 0
    ensures PlPlan(start, size, 0) == []
    ensures !Tiles(PlPlan(start, size, 0), start, start + size)
  {
  }

  // ---------------------------------------------------------------------------
  // parallel/parallel.hpp
  // ---------------------------------------------------------------------------

  /** A `size_t` result. */
  function WrapSize(x: int): nat { x % SizeModulus }

  /** `job_per_core`; with no threads it is never used, as the loop does not run. */
  function ParPerCore(size: nat, threads: nat): nat
  {
    if threads == 0 then 0 else CeilDiv(size, threads)
  }

  /** The length of a job, as written: `size - given` goes below zero once `given > size`. */
  function ParLengthAsWritten(size: nat, per: nat, given: nat): nat
  {
    if per + given > size then WrapSize(size - given) else per
  }

  /**
   * The as-written length: a full slice while one is left, the rest of the
   * range for the job that reaches its end, and past the end a `size_t`
   * wrapped to 2^64 minus how far the job starts beyond the range.
   */
  lemma ParLengthWraps(size: nat, per: nat, given: nat)
    ensures given + per <= size ==> ParLengthAsWritten(size, per, given) == per
    ensures given <= size < given + per && size - given < SizeModulus ==> ParLengthAsWritten(size, per, given) == size - given
    ensures size < given <= size + SizeModulus ==> ParLengthAsWritten(size, per, given) == size + SizeModulus - given
  {
  }

  /** The length of a job clipped to what is left of the range, never below zero. */
  function ParLength(size: nat, per: nat, given: nat): (len: nat)
    ensures len <= per
    ensures given + len <= size || len == 0
    ensures given + per <= size ==> len == per
  {
    if given >= size then 0 else if per + given > size then size - given else per
  }

  /** The chunks of the jobs `parallel::create_job` creates, job i going to thread i, as written. */
  function ParPlanAsWritten(start: nat, size: nat, threads: nat): (r: seq<Chunk>)
    ensures |r| == threads
  {
    var per := ParPerCore(size, threads);
    seq(threads, i requires 0 <= i < threads => Chunk(start + i * per, ParLengthAsWritten(size, per, i * per)))
  }

  /** The same jobs with lengths clipped at zero. */
  function ParPlan(start: nat, size: nat, threads: nat): (r: seq<Chunk>)
    ensures |r| == threads
  {
    var per := ParPerCore(size, threads);
    seq(threads, i requires 0 <= i < threads => Chunk(start + i * per, ParLength(size, per, i * per)))
  }

  lemma {:induction false} ParPlanSuffixTiles(start: nat, size: nat, threads: nat, i: nat)
    requires threads >= 1 && i <= threads
    ensures var per := CeilDiv(size, threads);
      Tiles(ParPlan(start, size, threads)[i..], start + if i * per <= size then i * per else size, start + size)
    decreases threads - i
  {
    var per := CeilDiv(size, threads);
    var r := ParPlan(start, size, threads);
    if i < threads {
      ParPlanSuffixTiles(start, size, threads, i + 1);
      assert r[i..][1..] == r[i + 1..];
      MulStep(i, per);
    } else {
      assert r[i..] == [];
      MulMono(i, threads, per);
    }
  }

  /**
   * With lengths clipped at zero, the parallel/ planner covers the range:
   * its non-empty jobs tile [start, start + size) exactly, job i starting at
   * start + i * per.
   */
  lemma ParPlanTiles(start: nat, size: nat, threads: nat)
    requires threads >= 1
    ensures var r := ParPlan(start, size, threads);
      && (forall i :: 0 <= i < threads ==> r[i].start == start + i * CeilDiv(size, threads))
      && Tiles(r, start, start + size)
  {
    ParPlanSuffixTiles(start, size, threads, 0);
    assert ParPlan(start, size, threads)[0..] == ParPlan(start, size, threads);
  }

  /**
   * As written and clipped agree when no job starts past the end:
   * (threads - 1) * per <= size.
   */
  lemma ParPlanAgrees(start: nat, size: nat, threads: nat)
    requires size < SizeModulus && threads >= 1
    requires (threads - 1) * CeilDiv(size, threads) <= size
    ensures ParPlanAsWritten(start, size, threads) == ParPlan(start, size, threads)
  {
    var per := CeilDiv(size, threads);
    var written := ParPlanAsWritten(start, size, threads);
    var clipped := ParPlan(start, size, threads);
    forall i | 0 <= i < threads
      ensures written[i] == clipped[i]
    {
      MulMono(i, threads - 1, per);
      LengthAgrees(size, per, i * per);
    }
  }

  /** A job that starts within the range has the same length as written and clipped. */
  lemma LengthAgrees(size: nat, per: nat, given: nat)
    requires given <= size < SizeModulus
    ensures ParLengthAsWritten(size, per, given) == ParLength(size, per, given)
  {
  }

  /**
   * One item on three threads: job 2 starts at 2, past the range [0, 1), and
   * `1 - 2` wraps its length to 2^64 - 1; clipped, it is empty.
   */
  lemma ParPlanUnderflow()
    ensures ParPlanAsWritten(0, 1, 3)[2] == Chunk(2, SizeModulus - 1)
    ensures ParPlan(0, 1, 3)[2] == Chunk(2, 0)
  {
    assert CeilDiv(1, 3) == 1;
  }

  /**
   * The wrapped job is then run: with a callback that always answers true,
   * the as-written plan calls back index 2, outside [0, 1), while the clipped
   * plan calls back exactly index 0.
   */
  lemma ParPlanUnderflowRunsPastEnd(ok: nat -> bool)
    requires forall i: nat :: ok(i)
    ensures 2 in SeqTrace(false, ParPlanAsWritten(0, 1, 3), ok)
    ensures SeqTrace(false, ParPlan(0, 1, 3), ok) == [0]
  {
    var head := [Chunk(0, 1), Chunk(1, 0)];
    var last := Chunk(2, SizeModulus - 1);
    UnderflowPlan();
    SeqSnoc(false, head, last, ok);
    UnderflowHeadQuiet(ok);
    UnderflowLastCallsTwo(ok);
    var before := SeqTrace(false, head, ok);
    assert (before + RunTrace(false, last, ok))[|before|] == 2;
    ParPlanTiles(0, 1, 3);
    CompleteWithoutCancellation(ParPlan(0, 1, 3), 0, 1, ok);
  }

  /** The three jobs of one item on three threads, as written. */
  lemma UnderflowPlan()
    ensures ParPlanAsWritten(0, 1, 3) == [Chunk(0, 1), Chunk(1, 0)] + [Chunk(2, SizeModulus - 1)]
  {
    assert CeilDiv(1, 3) == 1;
  }

  /** The first two of those jobs run without raising the stop when index 0 answers true. */
  lemma UnderflowHeadQuiet(ok: nat -> bool)
    requires ok(0)
    ensures !SeqQuit(false, [Chunk(0, 1), Chunk(1, 0)], ok)
  {
    SeqQuitOfTiles([Chunk(0, 1), Chunk(1, 0)], 0, 1, ok);
  }

  /** The wrapped job, run with the stop lowered, calls back index 2 first when it answers true. */
  lemma UnderflowLastCallsTwo(ok: nat -> bool)
    requires ok(2)
    ensures |RunTrace(false, Chunk(2, SizeModulus - 1), ok)| > 0
    ensures RunTrace(false, Chunk(2, SizeModulus - 1), ok)[0] == 2
  {
    assert ScanLength(ok, 2, 2 + (SizeModulus - 1)) > 0;
  }
}
