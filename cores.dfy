/**
 * Core-count policies and their resolution against the hardware thread count,
 * in the two revisions of the library.
 */
module Cores {
  import opened Scan

  const UintMax: nat := 0xFFFF_FFFF

  /** C++ `unsigned int`. */
  type uint32 = x: nat | x <= UintMax

  /** `pl_cores`, the policy of the include/pl revision. */
  datatype PlCores = PlAll | PlAllMinusOne | PlHalf | PlQuarter | PlSingle

  function Min(a: nat, b: nat): nat { if a <= b then a else b }
  function Max(a: nat, b: nat): nat { if a <= b then b else a }

  /**
   * The switch at the head of `create_job`. PL_CORES_ALL_MINUS_ONE decrements a
   * variable that was never initialised, so it has no defined result: None.
   */
  function ResolvePl(policy: PlCores, physical: nat): (r: Option<nat>)
    ensures r.None? <==> policy == PlAllMinusOne
    ensures r.Some? ==> r.value <= Max(physical, 1)
  {
    match policy
    case PlAllMinusOne => None
    case PlHalf => Some(Min(physical / 2, 1))
    case PlQuarter => Some(Min(physical / 4, 1))
    case PlSingle => Some(1)
    case PlAll => Some(physical)
  }

  /** What each defined policy resolves to, as written. */
  lemma PlResolution(physical: nat)
    ensures ResolvePl(PlSingle, physical) == Some(1)
    ensures ResolvePl(PlAll, physical) == Some(physical)
    ensures ResolvePl(PlAllMinusOne, physical).None?
    ensures ResolvePl(PlHalf, physical).Some? && ResolvePl(PlHalf, physical).value <= 1
    ensures ResolvePl(PlHalf, physical).value == 0 <==> physical < 2
    ensures ResolvePl(PlQuarter, physical).Some? && ResolvePl(PlQuarter, physical).value <= 1
    ensures ResolvePl(PlQuarter, physical).value == 0 <==> physical < 4
  {
  }

  /**
   * HALF and QUARTER as the policy names promise: half and a quarter of the
   * hardware threads, rounded down, but never fewer than one thread nor, when
   * the count is known, more than the hardware has.
   */
  function ResolvePlIntended(policy: PlCores, physical: nat): (r: Option<nat>)
    ensures policy == PlHalf || policy == PlQuarter ==> r.Some? && 1 <= r.value && (physical >= 1 ==> r.value <= physical)
    ensures policy == PlHalf ==> 2 * r.value <= Max(physical, 2) < 2 * (r.value + 1)
    ensures policy == PlQuarter ==> 4 * r.value <= Max(physical, 4) < 4 * (r.value + 1)
    ensures policy != PlHalf && policy != PlQuarter ==> r == ResolvePl(policy, physical)
  {
    match policy
    case PlHalf => Some(Max(physical / 2, 1))
    case PlQuarter => Some(Max(physical / 4, 1))
    case _ => ResolvePl(policy, physical)
  }

  /** A quarter of the hardware never gets more threads than half of it. */
  lemma PlIntendedShares(physical: nat)
    ensures ResolvePlIntended(PlQuarter, physical).value <= ResolvePlIntended(PlHalf, physical).value
  {
  }

  /**
   * `std::min` where `std::max` was meant: on eight hardware threads HALF
   * resolves to one thread instead of four, and on one hardware thread to none.
   */
  lemma PlHalfUsesMin()
    ensures ResolvePl(PlHalf, 8) == Some(1) && ResolvePlIntended(PlHalf, 8) == Some(4)
    ensures ResolvePl(PlHalf, 1) == Some(0) && ResolvePlIntended(PlHalf, 1) == Some(1)
    ensures ResolvePl(PlQuarter, 3) == Some(0) && ResolvePlIntended(PlQuarter, 3) == Some(1)
  {
  }

  /** `parallel_cores`, the policy of the parallel/ revision. */
  datatype ParallelCores = All | AllMinusOne | Half | Quarter | Custom

  /** `n_threads` before `init`, and the value `create_job` refuses to run with. */
  const Uninitialised: uint32 := UintMax

  /** The switch of `parallel::init`, in `unsigned int` arithmetic. */
  function ResolveParallel(policy: ParallelCores, physical: uint32, custom: uint32): (r: uint32)
    ensures policy == AllMinusOne ==> if physical == 0 then r == UintMax else r + 1 == physical
    ensures policy == Half || policy == Quarter ==> 2 <= r && (physical >= 2 ==> r <= physical)
  {
    match policy
    case All => physical
    case AllMinusOne => (physical - 1) % (UintMax + 1)
    case Half => if physical / 2 < 2 then 2 else physical / 2
    case Quarter => if physical / 4 < 2 then 2 else physical / 4
    case Custom => custom
  }

  /** What each policy resolves to. */
  lemma ParallelResolution(physical: uint32, custom: uint32)
    ensures ResolveParallel(All, physical, custom) == physical
    ensures physical >= 1 ==> ResolveParallel(AllMinusOne, physical, custom) == physical - 1
    ensures physical == 0 ==> ResolveParallel(AllMinusOne, physical, custom) == UintMax
    ensures ResolveParallel(Half, physical, custom) == Max(physical / 2, 2)
    ensures ResolveParallel(Quarter, physical, custom) == Max(physical / 4, 2)
    ensures ResolveParallel(Custom, physical, custom) == custom
  {
  }

  /**
   * `init` stores the resolved count in `n_threads`, so a resolution that
   * lands on the sentinel leaves the library looking uninitialised: ALL on a
   * count of 2^32 - 1, ALL_MINUS_ONE when the hardware count is unknown (0),
   * and CUSTOM with the default argument -1.
   */
  lemma ResolvesToSentinel(policy: ParallelCores, physical: uint32, custom: uint32)
    ensures ResolveParallel(policy, physical, custom) == Uninitialised <==>
      || (policy == All && physical == UintMax)
      || (policy == AllMinusOne && physical == 0)
      || (policy == Custom && custom == UintMax)
  {
  }
}
