/** Completion orders, defined independently of how the checker finds one.

    An order is a sequence of process indices. `Released` is the work vector
    an order leaves behind: `available` plus the allocation rows of every
    process in it. An order is valid when each process fits in what its
    predecessors released; it is a greedy run when, in addition, each step
    took the lowest-indexed unfinished process that fit and the run stopped
    only when no unfinished process fit.
 */
module Orders {
  import opened Resources

  /** The snapshot the checker consumes: N = |need| processes, R = |available|
      resource types, allocation and need both N x R. */
  predicate Shaped(available: Vector, allocation: Matrix, need: Matrix) {
    IsMatrix(allocation, |need|, |available|) && IsMatrix(need, |need|, |available|)
  }

  predicate InRange(order: seq<nat>, n: nat) {
    forall k :: 0 <= k < |order| ==> order[k] < n
  }

  predicate Distinct(order: seq<nat>) {
    forall a, b :: 0 <= a < b < |order| ==> order[a] != order[b]
  }

  /** Every index below `n` appears exactly once. */
  predicate IsPermutation(order: seq<nat>, n: nat) {
    |order| == n && InRange(order, n) && Distinct(order)
    && forall i :: 0 <= i < n ==> i in order
  }

  /** `available` plus the allocation rows of the processes in `order`. */
  function Released(available: Vector, allocation: Matrix, order: seq<nat>): (w: Vector)
    requires IsMatrix(allocation, |allocation|, |available|)
    requires InRange(order, |allocation|)
    ensures |w| == |available|
    decreases |order|
  {
    if |order| == 0 then available
    else AddRow(Released(available, allocation, order[..|order| - 1]), allocation[order[|order| - 1]])
  }

  /** Local validity: every process in `order` fits in the work vector its
      predecessors released. */
  predicate ValidOrder(available: Vector, allocation: Matrix, need: Matrix, order: seq<nat>)
    requires Shaped(available, allocation, need)
  {
    && InRange(order, |need|)
    && Distinct(order)
    && forall k :: 0 <= k < |order| ==>
         Fits(need[order[k]], Released(available, allocation, order[..k]))
  }

  /** A safe sequence: a valid order that completes every process. */
  predicate SafeOrder(available: Vector, allocation: Matrix, need: Matrix, order: seq<nat>)
    requires Shaped(available, allocation, need)
  {
    ValidOrder(available, allocation, need, order) && IsPermutation(order, |need|)
  }

  /** The system is safe: some completion order exists. */
  ghost predicate SafeSystem(available: Vector, allocation: Matrix, need: Matrix)
    requires Shaped(available, allocation, need)
  {
    exists order :: SafeOrder(available, allocation, need, order)
  }

  /** Every step took the lowest-indexed unfinished process that fit. */
  predicate LowestFirst(available: Vector, allocation: Matrix, need: Matrix, order: seq<nat>)
    requires Shaped(available, allocation, need)
    requires InRange(order, |need|)
  {
    forall k, q :: 0 <= k < |order| && 0 <= q < order[k] && q !in order[..k] ==>
      !Fits(need[q], Released(available, allocation, order[..k]))
  }

  /** No process left out of `order` fits in what `order` released. */
  predicate Stuck(available: Vector, allocation: Matrix, need: Matrix, order: seq<nat>)
    requires Shaped(available, allocation, need)
    requires InRange(order, |need|)
  {
    forall q :: 0 <= q < |need| && q !in order ==>
      !Fits(need[q], Released(available, allocation, order))
  }

  /** What a run of the safety check produces, described without the check. */
  predicate GreedyRun(available: Vector, allocation: Matrix, need: Matrix, order: seq<nat>)
    requires Shaped(available, allocation, need)
  {
    && ValidOrder(available, allocation, need, order)
    && LowestFirst(available, allocation, need, order)
    && Stuck(available, allocation, need, order)
  }

  /** Appending a process that fits in what the order released keeps the
      order valid, and the new work vector is the old one plus its row. */
  lemma AppendValid(available: Vector, allocation: Matrix, need: Matrix, order: seq<nat>, p: nat)
    requires Shaped(available, allocation, need)
    requires ValidOrder(available, allocation, need, order)
    requires p < |need| && p !in order
    requires Fits(need[p], Released(available, allocation, order))
    ensures ValidOrder(available, allocation, need, order + [p])
    ensures Released(available, allocation, order + [p])
         == AddRow(Released(available, allocation, order), allocation[p])
  {
    var o := order + [p];
    assert o[..|order|] == order;
    forall k | 0 <= k < |order|
      ensures o[..k] == order[..k]
    {
    }
  }

  /** Appending the lowest-indexed fitting process keeps the order lowest-first. */
  lemma AppendLowestFirst(available: Vector, allocation: Matrix, need: Matrix, order: seq<nat>, p: nat)
    requires Shaped(available, allocation, need)
    requires InRange(order, |need|) && LowestFirst(available, allocation, need, order)
    requires p < |need|
    requires forall q :: 0 <= q < p && q !in order ==>
      !Fits(need[q], Released(available, allocation, order))
    ensures InRange(order + [p], |need|)
    ensures LowestFirst(available, allocation, need, order + [p])
  {
    var o := order + [p];
    assert o[..|order|] == order;
    forall k | 0 <= k < |order|
      ensures o[..k] == order[..k]
    {
    }
  }

  /** The finished flags an order leaves behind: flag `i` is set iff `i` is in it. */
  function FinishedBy(order: seq<nat>, n: nat): (f: seq<bool>)
    ensures |f| == n
    ensures forall i :: 0 <= i < n ==> (f[i] <==> i in order)
  {
    seq(n, i requires 0 <= i < n => i in order)
  }

  /** Extending an order by one element only adds that element's flag. */
  lemma FinishedByAppend(order: seq<nat>, p: nat, n: nat)
    requires p < n && p !in order
    ensures FinishedBy(order + [p], n) == FinishedBy(order, n)[p := true]
    ensures !FinishedBy(order, n)[p]
  {
    var f := FinishedBy(order + [p], n);
    var g := FinishedBy(order, n)[p := true];
    forall i | 0 <= i < n
      ensures f[i] == g[i]
    {
      assert i in order + [p] <==> i in order || i == p;
    }
  }

  /** A distinct order of indices below `n` sets exactly |order| flags. */
  lemma {:induction false} CountFinishedBy(order: seq<nat>, n: nat)
    requires InRange(order, n) && Distinct(order)
    ensures CountTrue(FinishedBy(order, n)) == |order|
  {
    if |order| == 0 {
      CountTrueNone(FinishedBy(order, n));
    } else {
      var init := order[..|order| - 1];
      var p := order[|order| - 1];
      assert order == init + [p];
      CountFinishedBy(init, n);
      FinishedByAppend(init, p, n);
      CountTrueSet(FinishedBy(init, n), p);
    }
  }

  /** Pigeonhole: a distinct order of indices below `n` that is shorter than
      `n` leaves some index out. */
  lemma MissingIndex(order: seq<nat>, n: nat) returns (i: nat)
    requires InRange(order, n) && Distinct(order) && |order| < n
    ensures i < n && i !in order
  {
    var f := FinishedBy(order, n);
    CountFinishedBy(order, n);
    CountTrueFull(f);
    i :| 0 <= i < n && !f[i];
  }

  /** Conservation: the work an order releases is `available` plus the
      allocation column sum over the processes the order contains, however
      they are ordered. */
  lemma {:induction false} ReleasedIsHeld(available: Vector, allocation: Matrix, order: seq<nat>, j: nat)
    requires IsMatrix(allocation, |allocation|, |available|)
    requires InRange(order, |allocation|) && Distinct(order)
    requires j < |available|
    ensures HasColumn(allocation, j)
    ensures Released(available, allocation, order)[j]
         == available[j] + Held(allocation, FinishedBy(order, |allocation|), j, |allocation|)
    decreases |order|
  {
    var n := |allocation|;
    if |order| == 0 {
      HeldNone(allocation, FinishedBy(order, n), j, n);
    } else {
      var init := order[..|order| - 1];
      var p := order[|order| - 1];
      assert order == init + [p];
      ReleasedIsHeld(available, allocation, init, j);
      FinishedByAppend(init, p, n);
      HeldSet(allocation, FinishedBy(init, n), p, j, n);
    }
  }

  /** With non-negative allocations, an order whose processes all occur in
      another order releases no more than that other order, column by column. */
  lemma ReleasedMonotone(available: Vector, allocation: Matrix, small: seq<nat>, large: seq<nat>)
    requires IsMatrix(allocation, |allocation|, |available|) && NonNegative(allocation)
    requires InRange(small, |allocation|) && Distinct(small)
    requires InRange(large, |allocation|) && Distinct(large)
    requires forall x :: x in small ==> x in large
    ensures forall j :: 0 <= j < |available| ==>
      Released(available, allocation, small)[j] <= Released(available, allocation, large)[j]
  {
    var n := |allocation|;
    forall j | 0 <= j < |available|
      ensures Released(available, allocation, small)[j] <= Released(available, allocation, large)[j]
    {
      ReleasedIsHeld(available, allocation, small, j);
      ReleasedIsHeld(available, allocation, large, j);
      HeldMonotone(allocation, FinishedBy(small, n), FinishedBy(large, n), j, n);
    }
  }

  /** Conservation at the end: any safe sequence returns every allocated unit,
      so the final work is `available` plus the full column totals. */
  lemma SafeOrderReleasesEverything(available: Vector, allocation: Matrix, need: Matrix, order: seq<nat>)
    requires Shaped(available, allocation, need)
    requires SafeOrder(available, allocation, need, order)
    ensures forall j :: 0 <= j < |available| ==>
      HasColumn(allocation, j) &&
      Released(available, allocation, order)[j] == available[j] + ColumnTotal(allocation, j, |need|)
  {
    var n := |need|;
    forall j | 0 <= j < |available|
      ensures HasColumn(allocation, j)
      ensures Released(available, allocation, order)[j] == available[j] + ColumnTotal(allocation, j, n)
    {
      ReleasedIsHeld(available, allocation, order, j);
      HeldAll(allocation, FinishedBy(order, n), j, n);
    }
  }

  /** Two greedy runs that agree on their first `k` steps are the same run. */
  lemma {:induction false} GreedyRunsAgreeFrom(available: Vector, allocation: Matrix, need: Matrix,
                                               s: seq<nat>, t: seq<nat>, k: nat)
    requires Shaped(available, allocation, need)
    requires GreedyRun(available, allocation, need, s) && GreedyRun(available, allocation, need, t)
    requires k <= |s| && k <= |t| && s[..k] == t[..k]
    ensures s == t
    decreases |s| - k
  {
    if k < |s| && k < |t| {
      GreedyStepAgrees(available, allocation, need, s, t, k);
      GreedyRunsAgreeFrom(available, allocation, need, s, t, k + 1);
    } else {
      StuckRunIsLongest(available, allocation, need, s, t, k);
      StuckRunIsLongest(available, allocation, need, t, s, k);
      assert s == s[..k] && t == t[..k];
    }
  }

  /** Two greedy runs with a common prefix take the same next step. */
  lemma GreedyStepAgrees(available: Vector, allocation: Matrix, need: Matrix,
                         s: seq<nat>, t: seq<nat>, k: nat)
    requires Shaped(available, allocation, need)
    requires GreedyRun(available, allocation, need, s) && GreedyRun(available, allocation, need, t)
    requires k < |s| && k < |t| && s[..k] == t[..k]
    ensures s[..k + 1] == t[..k + 1]
  {
    LowestFitWins(available, allocation, need, s, t, k);
    LowestFitWins(available, allocation, need, t, s, k);
    PrefixExtends(s, t, k);
  }

  lemma PrefixExtends(s: seq<nat>, t: seq<nat>, k: nat)
    requires k < |s| && k < |t| && s[..k] == t[..k] && s[k] == t[k]
    ensures s[..k + 1] == t[..k + 1]
  {
    assert s[..k + 1] == s[..k] + [s[k]];
    assert t[..k + 1] == t[..k] + [t[k]];
  }

  /** At a common prefix, a lowest-first run never takes a higher index than
      another valid order takes. */
  lemma LowestFitWins(available: Vector, allocation: Matrix, need: Matrix,
                      s: seq<nat>, t: seq<nat>, k: nat)
    requires Shaped(available, allocation, need)
    requires GreedyRun(available, allocation, need, s) && ValidOrder(available, allocation, need, t)
    requires k < |s| && k < |t| && s[..k] == t[..k]
    ensures s[k] <= t[k]
  {
    assert t[k] !in t[..k];
    assert Fits(need[t[k]], Released(available, allocation, t[..k]));
  }

  /** The step a valid order takes after a prefix is unfinished at that
      prefix and fits in what the prefix released. */
  lemma NextStepFits(available: Vector, allocation: Matrix, need: Matrix, t: seq<nat>, k: nat)
    requires Shaped(available, allocation, need)
    requires ValidOrder(available, allocation, need, t)
    requires k <= |t|
    ensures k < |t| ==>
      t[k] !in t[..k] && Fits(need[t[k]], Released(available, allocation, t[..k]))
  {
    if k < |t| {
      assert t[k] !in t[..k];
    }
  }

  /** A stuck run cannot be strictly extended by another valid order. */
  lemma StuckRunIsLongest(available: Vector, allocation: Matrix, need: Matrix,
                          s: seq<nat>, t: seq<nat>, k: nat)
    requires Shaped(available, allocation, need)
    requires GreedyRun(available, allocation, need, s) && ValidOrder(available, allocation, need, t)
    requires k <= |s| && k <= |t| && s[..k] == t[..k]
    ensures k == |s| ==> |t| == k
  {
    NextStepFits(available, allocation, need, t, k);
    assert k == |s| ==> s == s[..k];
  }

  /** Determinism: a snapshot has exactly one greedy run. */
  lemma GreedyRunUnique(available: Vector, allocation: Matrix, need: Matrix, s: seq<nat>, t: seq<nat>)
    requires Shaped(available, allocation, need)
    requires GreedyRun(available, allocation, need, s) && GreedyRun(available, allocation, need, t)
    ensures s == t
  {
    GreedyRunsAgreeFrom(available, allocation, need, s, t, 0);
  }
}
