/** The safety check as a pure function: start from `available` with every
    process unfinished, repeatedly take the lowest-indexed unfinished process
    whose need fits in the work vector, release its allocation, and stop when
    a full scan finds nobody. The system is safe when everybody finished.
 */
module Greedy {
  import opened Resources
  import opened Orders

  /** The checker's scratch state: the work vector, one finished flag per
      process and the processes taken so far, in order. */
  datatype Scan = Scan(work: Vector, finish: seq<bool>, order: seq<nat>)

  /** Outcome of one left-to-right scan. */
  datatype Pick = NoneEligible | Picked(p: nat)

  /** Outcome of the whole check: the safe/unsafe verdict and the processes
      taken, in order (a full safe sequence only when `safe`). */
  datatype Verdict = Verdict(safe: bool, sequence: seq<nat>)

  /** The state before the first scan: work is a copy of `available` and no
      process has finished. */
  function Start(available: Vector, n: nat): Scan {
    Scan(available, seq(n, _ => false), [])
  }

  /** `work`, `finish` and every need row have the dimensions of the snapshot. */
  predicate ScanShaped(need: Matrix, s: Scan) {
    |s.finish| == |need| && forall i :: 0 <= i < |need| ==> |need[i]| == |s.work|
  }

  /** Process `i` is unfinished and its need fits in the work vector. */
  predicate Eligible(need: Matrix, s: Scan, i: nat)
    requires ScanShaped(need, s) && i < |need|
  {
    !s.finish[i] && Fits(need[i], s.work)
  }

  /** The first eligible process at or after index `from`. */
  function FirstEligible(need: Matrix, s: Scan, from: nat): (r: Pick)
    requires ScanShaped(need, s) && from <= |need|
    ensures r.Picked? ==> from <= r.p < |need| && Eligible(need, s, r.p)
    ensures r.Picked? ==> forall q :: from <= q < r.p ==> !Eligible(need, s, q)
    ensures r.NoneEligible? ==> forall q :: from <= q < |need| ==> !Eligible(need, s, q)
    decreases |need| - from
  {
    if from == |need| then NoneEligible
    else if Eligible(need, s, from) then Picked(from)
    else FirstEligible(need, s, from + 1)
  }

  /** Running process `p` to completion: release its allocation, mark it
      finished and append it to the order. */
  function Choose(allocation: Matrix, s: Scan, p: nat): Scan
    requires p < |allocation| && p < |s.finish| && |allocation[p]| == |s.work|
  {
    Scan(AddRow(s.work, allocation[p]), s.finish[p := true], s.order + [p])
  }

  /** Everything the checker knows about a state reachable from `Start`:
      the flags are exactly the processes taken, the work vector is what
      they released, and the order taken so far is a greedy prefix. */
  predicate Consistent(available: Vector, allocation: Matrix, need: Matrix, s: Scan) {
    && Shaped(available, allocation, need)
    && |s.work| == |available|
    && |s.finish| == |need|
    && ValidOrder(available, allocation, need, s.order)
    && LowestFirst(available, allocation, need, s.order)
    && s.work == Released(available, allocation, s.order)
    && (forall i :: 0 <= i < |need| ==> (s.finish[i] <==> i in s.order))
    && |s.order| == CountTrue(s.finish)
  }

  lemma StartIsConsistent(available: Vector, allocation: Matrix, need: Matrix)
    requires Shaped(available, allocation, need)
    ensures Consistent(available, allocation, need, Start(available, |need|))
  {
    CountTrueNone(Start(available, |need|).finish);
  }

  /** Taking the first eligible process keeps the state consistent. */
  lemma ChooseKeepsConsistent(available: Vector, allocation: Matrix, need: Matrix, s: Scan, p: nat)
    requires Consistent(available, allocation, need, s)
    requires FirstEligible(need, s, 0) == Picked(p)
    ensures Consistent(available, allocation, need, Choose(allocation, s, p))
    ensures |Choose(allocation, s, p).order| == |s.order| + 1
  {
    assert p !in s.order;
    AppendValid(available, allocation, need, s.order, p);
    LowerIndicesDoNotFit(available, allocation, need, s, p);
    AppendLowestFirst(available, allocation, need, s.order, p);
    FlagsFollowOrder(s.finish, s.order, p);
    CountTrueSet(s.finish, p);
  }

  /** Below the first eligible process, every process left out of the order
      needs more than the order released. */
  lemma LowerIndicesDoNotFit(available: Vector, allocation: Matrix, need: Matrix, s: Scan, p: nat)
    requires Consistent(available, allocation, need, s)
    requires FirstEligible(need, s, 0) == Picked(p)
    ensures forall q :: 0 <= q < p && q !in s.order ==>
      !Fits(need[q], Released(available, allocation, s.order))
  {
    forall q | 0 <= q < p && q !in s.order
      ensures !Fits(need[q], Released(available, allocation, s.order))
    {
      assert !Eligible(need, s, q);
    }
  }

  /** Setting the flag of the appended process keeps flags and order in step. */
  lemma FlagsFollowOrder(finish: seq<bool>, order: seq<nat>, p: nat)
    requires p < |finish| && p !in order
    requires forall i :: 0 <= i < |finish| ==> (finish[i] <==> i in order)
    ensures forall i :: 0 <= i < |finish| ==> (finish[p := true][i] <==> i in order + [p])
  {
    forall i | 0 <= i < |finish|
      ensures (finish[p := true][i] <==> i in order + [p])
    {
      assert i in order + [p] <==> i in order || i == p;
    }
  }

  /** The scan-release loop run to its end. */
  function Run(available: Vector, allocation: Matrix, need: Matrix, s: Scan): (r: Scan)
    requires Consistent(available, allocation, need, s)
    ensures Consistent(available, allocation, need, r)
    ensures s.order <= r.order
    ensures FirstEligible(need, r, 0).NoneEligible?
    decreases |need| - |s.order|
  {
    match FirstEligible(need, s, 0)
    case NoneEligible => s
    case Picked(p) =>
      ChooseKeepsConsistent(available, allocation, need, s, p);
      Run(available, allocation, need, Choose(allocation, s, p))
  }

  /** Every flag is set. */
  predicate AllFinished(finish: seq<bool>) {
    forall i :: 0 <= i < |finish| ==> finish[i]
  }

  /** The safety check on a snapshot: the processes taken by the greedy
      loop form the unique greedy run; the verdict is safe exactly when that
      run covers every process, and then it is a safe sequence. */
  function Check(available: Vector, allocation: Matrix, need: Matrix): (v: Verdict)
    requires Shaped(available, allocation, need)
    ensures GreedyRun(available, allocation, need, v.sequence)
    ensures v.safe <==> |v.sequence| == |need|
    ensures v.safe ==> SafeOrder(available, allocation, need, v.sequence)
  {
    StartIsConsistent(available, allocation, need);
    var r := Run(available, allocation, need, Start(available, |need|));
    RunEndsStuck(available, allocation, need, r);
    CountTrueFull(r.finish);
    Verdict(AllFinished(r.finish), r.order)
  }

  /** A consistent state where no process is eligible is the end of a greedy run. */
  lemma RunEndsStuck(available: Vector, allocation: Matrix, need: Matrix, r: Scan)
    requires Consistent(available, allocation, need, r)
    requires FirstEligible(need, r, 0).NoneEligible?
    ensures GreedyRun(available, allocation, need, r.order)
  {
    forall q | 0 <= q < |need| && q !in r.order
      ensures !Fits(need[q], Released(available, allocation, r.order))
    {
      assert !Eligible(need, r, q);
    }
  }
}
