/**
 * The index-walking loop shared by every task and job of both revisions,
 * as a specification.
 *
 * A task walks the indices of its chunk in ascending order and calls the user
 * callback at each; the first `false` answer makes it broadcast a force-quit
 * and stop right after that index. A job runs its chunks one after another
 * (the sequential schedule of its worker threads), and once one of them has
 * quit every later one sees the stop flag before its first index.
 */
module Scan {

  datatype Option<T> = None | Some(value: T)

  /** The indices [start, start + length) handed to one task or job. */
  datatype Chunk = Chunk(start: nat, length: nat)

  function End(c: Chunk): nat { c.start + c.length }

  /** The ascending indices lo, lo + 1, ..., hi - 1. */
  function Range(lo: nat, hi: nat): (r: seq<nat>)
    ensures |r| == if lo <= hi then hi - lo else 0
    decreases hi - lo
  {
    if lo >= hi then [] else [lo] + Range(lo + 1, hi)
  }

  /** Whether some index of [lo, hi) gets a `false` answer. */
  ghost predicate Quits(ok: nat -> bool, lo: nat, hi: nat)
    decreases hi - lo
  {
    lo < hi && (!ok(lo) || Quits(ok, lo + 1, hi))
  }

  /**
   * How many indices of lo, lo + 1, ... (below hi) the loop calls `ok` at
   * when it stops right after the first `false` answer.
   */
  function ScanLength(ok: nat -> bool, lo: nat, hi: nat): nat
    decreases hi - lo
  {
    if lo >= hi then 0 else if !ok(lo) then 1 else 1 + ScanLength(ok, lo + 1, hi)
  }

  /**
   * The scan calls `ok` on a prefix of [lo, hi): every index but the last
   * answered true, the last answered false exactly when the range holds a
   * false answer, and without one the whole range is scanned.
   */
  lemma {:induction false} ScanStopsAtFirstFalse(ok: nat -> bool, lo: nat, hi: nat)
    requires lo <= hi
    ensures ScanLength(ok, lo, hi) <= hi - lo
    ensures forall i: nat :: lo <= i < lo + ScanLength(ok, lo, hi) - 1 ==> ok(i)
    ensures Quits(ok, lo, hi) <==> ScanLength(ok, lo, hi) > 0 && !ok(lo + ScanLength(ok, lo, hi) - 1)
    ensures Quits(ok, lo, hi) <==> exists i: nat :: lo <= i < hi && !ok(i)
    ensures !Quits(ok, lo, hi) ==> ScanLength(ok, lo, hi) == hi - lo
    decreases hi - lo
  {
    if lo < hi {
      ScanStopsAtFirstFalse(ok, lo + 1, hi);
      if !ok(lo) {
        assert lo <= lo < hi && !ok(lo);
      } else {
        if exists i: nat :: lo <= i < hi && !ok(i) {
          var i: nat :| lo <= i < hi && !ok(i);
          assert lo + 1 <= i < hi && !ok(i);
        }
        if Quits(ok, lo + 1, hi) {
          var i: nat :| lo + 1 <= i < hi && !ok(i);
          assert lo <= i < hi && !ok(i);
        }
      }
    }
  }

  /** Scanning [lo, hi) is scanning [lo, mid) and, when that did not quit, [mid, hi). */
  lemma {:induction false} ScanSplit(ok: nat -> bool, lo: nat, mid: nat, hi: nat)
    requires lo <= mid <= hi
    ensures ScanLength(ok, lo, hi) ==
      if Quits(ok, lo, mid) then ScanLength(ok, lo, mid) else (mid - lo) + ScanLength(ok, mid, hi)
    ensures Quits(ok, lo, hi) <==> Quits(ok, lo, mid) || Quits(ok, mid, hi)
    decreases mid - lo
  {
    if lo < mid {
      ScanSplit(ok, lo + 1, mid, hi);
    }
  }

  /** A scan that meets its first `false` answer at index i calls back lo, ..., i and quits. */
  lemma ScanStopsAt(ok: nat -> bool, lo: nat, i: nat, hi: nat)
    requires lo <= i < hi
    requires forall j: nat :: lo <= j < i ==> ok(j)
    requires !ok(i)
    ensures Quits(ok, lo, hi)
    ensures ScanLength(ok, lo, hi) == i - lo + 1
    ensures Range(lo, i) + [i] == Range(lo, lo + ScanLength(ok, lo, hi))
  {
    ScanStopsAtFirstFalse(ok, lo, i);
    ScanSplit(ok, lo, i, hi);
    assert ScanLength(ok, i, hi) == 1;
    RangeConcat(lo, i, i + 1);
  }

  /** A scan that never meets a `false` answer calls back the whole range and does not quit. */
  lemma ScanCompletes(ok: nat -> bool, lo: nat, hi: nat)
    requires lo <= hi
    requires forall j: nat :: lo <= j < hi ==> ok(j)
    ensures !Quits(ok, lo, hi) && ScanLength(ok, lo, hi) == hi - lo
  {
    ScanStopsAtFirstFalse(ok, lo, hi);
  }

  /**
   * The exit of a loop over [lo, lo + n) that stops after the first `false`
   * answer, having called back lo, ..., lo + i - 1: with `quit` it stopped
   * at a `false` answer, without it it ran to the end. Either way it called
   * back one task's trace, and `quit` is whether that task raises the stop.
   */
  lemma ScanExit(ok: nat -> bool, lo: nat, n: nat, i: nat, quit: bool)
    requires i <= n
    requires quit ==> i > 0 && !ok(lo + i - 1) && forall j: nat :: lo <= j < lo + i - 1 ==> ok(j)
    requires !quit ==> i == n && forall j: nat :: lo <= j < lo + i ==> ok(j)
    ensures Range(lo, lo + i) == RunTrace(false, Chunk(lo, n), ok)
    ensures quit == RunQuits(false, Chunk(lo, n), ok)
  {
    if quit {
      ScanStopsAt(ok, lo, lo + i - 1, lo + n);
    } else {
      ScanCompletes(ok, lo, lo + n);
    }
  }

  /** The k-th index of [lo, hi) is lo + k. */
  lemma {:induction false} RangeAt(lo: nat, hi: nat)
    ensures forall k :: 0 <= k < |Range(lo, hi)| ==> Range(lo, hi)[k] == lo + k
    decreases hi - lo
  {
    if lo < hi {
      RangeAt(lo + 1, hi);
    }
  }

  lemma RangeConcat(lo: nat, mid: nat, hi: nat)
    requires lo <= mid <= hi
    ensures Range(lo, mid) + Range(mid, hi) == Range(lo, hi)
  {
    RangeAt(lo, mid);
    RangeAt(mid, hi);
    RangeAt(lo, hi);
    assert (Range(lo, mid) + Range(mid, hi))[..] == Range(lo, hi)[..];
  }

  /** Calling back one more index extends [lo, hi) by hi. */
  lemma RangeSnoc(lo: nat, hi: nat)
    requires lo <= hi
    ensures Range(lo, hi) + [hi] == Range(lo, hi + 1)
  {
    RangeConcat(lo, hi, hi + 1);
  }

  /** The indices at which one task calls its callback, given its stop flag on entry. */
  function RunTrace(stop: bool, c: Chunk, ok: nat -> bool): seq<nat>
  {
    if stop then [] else Range(c.start, c.start + ScanLength(ok, c.start, End(c)))
  }

  /** Whether running one task raises the job-wide stop. */
  ghost predicate RunQuits(stop: bool, c: Chunk, ok: nat -> bool)
  {
    !stop && Quits(ok, c.start, End(c))
  }

  /** The stop flag after running the chunks `cs` in order, starting from `quit`. */
  ghost function SeqQuit(quit: bool, cs: seq<Chunk>, ok: nat -> bool): bool
    decreases |cs|
  {
    if cs == [] then quit else SeqQuit(quit || RunQuits(quit, cs[0], ok), cs[1..], ok)
  }

  /** The indices called back when the chunks `cs` run in order, starting from `quit`. */
  ghost function SeqTrace(quit: bool, cs: seq<Chunk>, ok: nat -> bool): seq<nat>
    decreases |cs|
  {
    if cs == [] then []
    else RunTrace(quit, cs[0], ok) + SeqTrace(quit || RunQuits(quit, cs[0], ok), cs[1..], ok)
  }

  /** Running one more chunk after `cs` extends the trace by that chunk's run. */
  lemma {:induction false} SeqSnoc(quit: bool, cs: seq<Chunk>, c: Chunk, ok: nat -> bool)
    ensures SeqTrace(quit, cs + [c], ok) == SeqTrace(quit, cs, ok) + RunTrace(SeqQuit(quit, cs, ok), c, ok)
    decreases |cs|
  {
    if cs == [] {
      assert [c][1..] == [];
    } else {
      var q := quit || RunQuits(quit, cs[0], ok);
      var head := RunTrace(quit, cs[0], ok);
      var last := RunTrace(SeqQuit(q, cs[1..], ok), c, ok);
      assert (cs + [c])[0] == cs[0];
      assert (cs + [c])[1..] == cs[1..] + [c];
      SeqSnoc(q, cs[1..], c, ok);
      calc {
        SeqTrace(quit, cs + [c], ok);
        head + SeqTrace(q, cs[1..] + [c], ok);
        head + (SeqTrace(q, cs[1..], ok) + last);
        (head + SeqTrace(q, cs[1..], ok)) + last;
      }
    }
  }

  /** Running one more chunk after `cs` raises the stop if it was raised or that chunk raises it. */
  lemma {:induction false} SeqQuitSnoc(quit: bool, cs: seq<Chunk>, c: Chunk, ok: nat -> bool)
    ensures SeqQuit(quit, cs + [c], ok) == (SeqQuit(quit, cs, ok) || RunQuits(SeqQuit(quit, cs, ok), c, ok))
    decreases |cs|
  {
    if cs == [] {
      assert [c][1..] == [];
    } else {
      var q := quit || RunQuits(quit, cs[0], ok);
      assert (cs + [c])[1..] == cs[1..] + [c];
      SeqQuitSnoc(q, cs[1..], c, ok);
    }
  }

  /** Running the chunks up to k and then chunk k is running the chunks up to k + 1. */
  lemma SeqPrefixStep(quit: bool, cs: seq<Chunk>, k: nat, ok: nat -> bool)
    requires k < |cs|
    ensures SeqTrace(quit, cs[..k + 1], ok) == SeqTrace(quit, cs[..k], ok) + RunTrace(SeqQuit(quit, cs[..k], ok), cs[k], ok)
    ensures SeqQuit(quit, cs[..k + 1], ok) == (SeqQuit(quit, cs[..k], ok) || RunQuits(SeqQuit(quit, cs[..k], ok), cs[k], ok))
  {
    assert cs[..k + 1] == cs[..k] + [cs[k]];
    SeqSnoc(quit, cs[..k], cs[k], ok);
    SeqQuitSnoc(quit, cs[..k], cs[k], ok);
  }

  /** Once the stop is raised, no further chunk calls back. */
  lemma {:induction false} SeqAfterQuit(cs: seq<Chunk>, ok: nat -> bool)
    ensures SeqTrace(true, cs, ok) == [] && SeqQuit(true, cs, ok)
    decreases |cs|
  {
    if cs != [] {
      SeqAfterQuit(cs[1..], ok);
    }
  }

  /**
   * The non-empty chunks of `cs` lie end to end from lo to hi: contiguous,
   * non-overlapping and covering exactly [lo, hi). Empty chunks may sit anywhere.
   */
  ghost predicate Tiles(cs: seq<Chunk>, lo: nat, hi: nat)
    decreases |cs|
  {
    if cs == [] then lo == hi
    else if cs[0].length == 0 then Tiles(cs[1..], lo, hi)
    else cs[0].start == lo && Tiles(cs[1..], End(cs[0]), hi)
  }

  lemma {:induction false} TilesOrdered(cs: seq<Chunk>, lo: nat, hi: nat)
    requires Tiles(cs, lo, hi)
    ensures lo <= hi
    decreases |cs|
  {
    if cs != [] {
      if cs[0].length == 0 {
        TilesOrdered(cs[1..], lo, hi);
      } else {
        TilesOrdered(cs[1..], End(cs[0]), hi);
      }
    }
  }

  /** Every non-empty chunk of a tiling lies inside [lo, hi). */
  lemma {:induction false} TilesWithin(cs: seq<Chunk>, lo: nat, hi: nat)
    requires Tiles(cs, lo, hi)
    ensures forall k :: 0 <= k < |cs| && cs[k].length > 0 ==> lo <= cs[k].start && End(cs[k]) <= hi
    decreases |cs|
  {
    if cs != [] {
      var next := if cs[0].length == 0 then lo else End(cs[0]);
      TilesWithin(cs[1..], next, hi);
      TilesOrdered(cs[1..], next, hi);
      assert forall k :: 1 <= k < |cs| ==> cs[k] == cs[1..][k - 1];
    }
  }

  /** Chunks that tile [lo, hi) raise the stop exactly when the single loop over [lo, hi) would. */
  lemma {:induction false} SeqQuitOfTiles(cs: seq<Chunk>, lo: nat, hi: nat, ok: nat -> bool)
    requires Tiles(cs, lo, hi)
    ensures SeqQuit(false, cs, ok) == Quits(ok, lo, hi)
    decreases |cs|
  {
    TilesOrdered(cs, lo, hi);
    if cs == [] {
      assert !Quits(ok, lo, hi);
    } else if cs[0].length == 0 {
      assert !Quits(ok, cs[0].start, End(cs[0]));
      SeqQuitOfTiles(cs[1..], lo, hi, ok);
    } else {
      var mid := End(cs[0]);
      TilesOrdered(cs[1..], mid, hi);
      ScanSplit(ok, lo, mid, hi);
      if Quits(ok, lo, mid) {
        SeqAfterQuit(cs[1..], ok);
      } else {
        SeqQuitOfTiles(cs[1..], mid, hi, ok);
      }
    }
  }

  /**
   * Coverage made operational: running chunks that tile [lo, hi) calls back
   * exactly the indices the single loop over [lo, hi) would, in the same
   * ascending order.
   */
  lemma {:induction false} SeqTraceOfTiles(cs: seq<Chunk>, lo: nat, hi: nat, ok: nat -> bool)
    requires Tiles(cs, lo, hi)
    ensures lo <= hi
    ensures SeqTrace(false, cs, ok) == Range(lo, lo + ScanLength(ok, lo, hi))
    decreases |cs|
  {
    TilesOrdered(cs, lo, hi);
    if cs == [] {
    } else if cs[0].length == 0 {
      assert !Quits(ok, cs[0].start, End(cs[0]));
      SeqTraceOfTiles(cs[1..], lo, hi, ok);
      assert SeqTrace(false, cs, ok) == [] + SeqTrace(false, cs[1..], ok);
    } else {
      var mid := End(cs[0]);
      TilesOrdered(cs[1..], mid, hi);
      if Quits(ok, lo, mid) {
        FirstTileQuits(cs, lo, mid, hi, ok);
      } else {
        SeqTraceOfTiles(cs[1..], mid, hi, ok);
        FirstTileCompletes(cs, lo, mid, hi, ok);
      }
    }
  }

  /** A first tile [lo, mid) that quits is the whole trace of a tiling of [lo, hi). */
  lemma FirstTileQuits(cs: seq<Chunk>, lo: nat, mid: nat, hi: nat, ok: nat -> bool)
    requires lo < mid <= hi && cs != [] && cs[0] == Chunk(lo, mid - lo)
    requires Quits(ok, lo, mid)
    ensures SeqTrace(false, cs, ok) == Range(lo, lo + ScanLength(ok, lo, hi))
  {
    QuittingHead(cs, lo, mid, ok);
    ScanStopsInside(ok, lo, mid, hi);
  }

  /** A first chunk [lo, mid) that quits calls back its own scan and nothing after it. */
  lemma QuittingHead(cs: seq<Chunk>, lo: nat, mid: nat, ok: nat -> bool)
    requires lo < mid && cs != [] && cs[0] == Chunk(lo, mid - lo)
    requires Quits(ok, lo, mid)
    ensures SeqTrace(false, cs, ok) == Range(lo, lo + ScanLength(ok, lo, mid))
  {
    SeqAfterQuit(cs[1..], ok);
    assert RunQuits(false, cs[0], ok);
    assert SeqTrace(false, cs, ok) == RunTrace(false, cs[0], ok) + SeqTrace(true, cs[1..], ok);
  }

  /** A scan that quits inside [lo, mid) is unaffected by what lies past mid. */
  lemma ScanStopsInside(ok: nat -> bool, lo: nat, mid: nat, hi: nat)
    requires lo <= mid <= hi && Quits(ok, lo, mid)
    ensures ScanLength(ok, lo, hi) == ScanLength(ok, lo, mid)
  {
    ScanSplit(ok, lo, mid, hi);
  }

  /** A first tile [lo, mid) that completes is followed by the trace of the rest from mid. */
  lemma FirstTileCompletes(cs: seq<Chunk>, lo: nat, mid: nat, hi: nat, ok: nat -> bool)
    requires lo < mid <= hi && cs != [] && cs[0] == Chunk(lo, mid - lo)
    requires !Quits(ok, lo, mid)
    requires SeqTrace(false, cs[1..], ok) == Range(mid, mid + ScanLength(ok, mid, hi))
    ensures SeqTrace(false, cs, ok) == Range(lo, lo + ScanLength(ok, lo, hi))
  {
    var total := ScanLength(ok, lo, hi);
    var rest := ScanLength(ok, mid, hi);
    ScanPastCompleted(ok, lo, mid, hi);
    assert lo + total == mid + rest;
    RangeConcat(lo, mid, mid + rest);
    CompletedHead(cs, lo, mid, ok);
  }

  /** A first chunk [lo, mid) with no `false` answer calls back all of it and leaves the stop lowered. */
  lemma CompletedHead(cs: seq<Chunk>, lo: nat, mid: nat, ok: nat -> bool)
    requires lo <= mid && cs != [] && cs[0] == Chunk(lo, mid - lo)
    requires !Quits(ok, lo, mid)
    ensures SeqTrace(false, cs, ok) == Range(lo, mid) + SeqTrace(false, cs[1..], ok)
  {
    ScanPastCompleted(ok, lo, mid, mid);
  }

  /** A scan whose first part [lo, mid) has no `false` answer runs through it and goes on from mid. */
  lemma ScanPastCompleted(ok: nat -> bool, lo: nat, mid: nat, hi: nat)
    requires lo <= mid <= hi && !Quits(ok, lo, mid)
    ensures lo + ScanLength(ok, lo, hi) == mid + ScanLength(ok, mid, hi)
  {
    ScanStopsAtFirstFalse(ok, lo, mid);
    ScanSplit(ok, lo, mid, hi);
  }

  /**
   * With no false answer, chunks that tile [lo, hi) call back every index of
   * [lo, hi) exactly once, in ascending order, and never raise the stop.
   */
  lemma CompleteWithoutCancellation(cs: seq<Chunk>, lo: nat, hi: nat, ok: nat -> bool)
    requires Tiles(cs, lo, hi)
    requires forall i: nat :: lo <= i < hi ==> ok(i)
    ensures SeqTrace(false, cs, ok) == Range(lo, hi)
    ensures !SeqQuit(false, cs, ok)
    ensures forall i: nat :: lo <= i < hi <==> i in SeqTrace(false, cs, ok)
    ensures forall j, k :: 0 <= j < k < |SeqTrace(false, cs, ok)| ==> SeqTrace(false, cs, ok)[j] < SeqTrace(false, cs, ok)[k]
  {
    TilesOrdered(cs, lo, hi);
    ScanCompletes(ok, lo, hi);
    SeqTraceOfTiles(cs, lo, hi, ok);
    SeqQuitOfTiles(cs, lo, hi, ok);
    RangeMembers(lo, hi);
  }

  /** [lo, hi) holds exactly the indices from lo below hi, strictly ascending. */
  lemma RangeMembers(lo: nat, hi: nat)
    requires lo <= hi
    ensures forall i: nat :: lo <= i < hi <==> i in Range(lo, hi)
    ensures forall j, k :: 0 <= j < k < |Range(lo, hi)| ==> Range(lo, hi)[j] < Range(lo, hi)[k]
  {
    var r := Range(lo, hi);
    RangeAt(lo, hi);
    forall i: nat | lo <= i < hi ensures i in r {
      assert r[i - lo] == i;
    }
  }
}
