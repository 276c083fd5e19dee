/** The safety check as the C routine runs it: copy `available` into `work`,
    then a do-while of full left-to-right scans, each stopping at the first
    unfinished process whose need fits, releasing its allocation into `work`;
    the do-while ends when a scan finds nobody or after more than 2N scans;
    finally the verdict is "every process finished".

    The inner loops of the routine are separate methods here, one per loop.
 */
module SafeState {
  import opened Resources
  import opened Orders
  import opened Greedy

  /** The column loop that decides `need[i] <= work`, leaving at the first
      column where the need is larger. */
  method CanAllocate(needRow: Vector, work: Vector) returns (canAllocate: bool)
    requires |needRow| == |work|
    ensures canAllocate <==> Fits(needRow, work)
  {
    canAllocate := true;
    var j := 0;
    while j < |work|
      invariant 0 <= j <= |work|
      invariant forall c :: 0 <= c < j ==> needRow[c] <= work[c]
    {
      if needRow[j] > work[j] {
        canAllocate := false;
        return;
      }
      j := j + 1;
    }
  }

  /** The column loop `work[j] += allocation[i][j]`: the process returns
      everything it holds. */
  method Release(work: Vector, row: Vector) returns (updated: Vector)
    requires |work| == |row|
    ensures |updated| == |work|
    ensures forall j :: 0 <= j < |work| ==> updated[j] - work[j] == row[j]
    ensures updated == AddRow(work, row)
  {
    updated := work;
    var j := 0;
    while j < |work|
      invariant 0 <= j <= |work| && |updated| == |work|
      invariant forall c :: 0 <= c < j ==> updated[c] == work[c] + row[c]
      invariant forall c :: j <= c < |work| ==> updated[c] == work[c]
    {
      updated := updated[j := updated[j] + row[j]];
      j := j + 1;
    }
  }

  /** One pass of the do-while: scan processes in ascending order and run
      the first unfinished one whose need fits. Finds the process exactly
      when the functional scan does, and then performs exactly its step. */
  method ScanOnce(available: Vector, allocation: Matrix, need: Matrix, s: Scan)
    returns (found: bool, next: Scan)
    requires Consistent(available, allocation, need, s)
    ensures found <==> FirstEligible(need, s, 0).Picked?
    ensures found ==> next == Choose(allocation, s, FirstEligible(need, s, 0).p)
    ensures !found ==> next == s
  {
    var n := |need|;
    var p := 0;
    while p < n
      invariant 0 <= p <= n
      invariant forall q :: 0 <= q < p ==> !Eligible(need, s, q)
    {
      if !s.finish[p] {
        var canAllocate := CanAllocate(need[p], s.work);
        if canAllocate {
          assert Eligible(need, s, p);
          var work := Release(s.work, allocation[p]);
          found := true;
          next := Scan(work, s.finish[p := true], s.order + [p]);
          assert FirstEligible(need, s, 0) == Picked(p);
          return;
        }
      }
      p := p + 1;
    }
    found := false;
    next := s;
  }

  /** The final loop: the verdict is safe iff no process is left unfinished. */
  method AllDone(finish: seq<bool>) returns (safe: bool)
    ensures safe <==> forall i :: 0 <= i < |finish| ==> finish[i]
  {
    var i := 0;
    while i < |finish|
      invariant 0 <= i <= |finish|
      invariant forall k :: 0 <= k < i ==> finish[k]
    {
      if !finish[i] {
        return false;
      }
      i := i + 1;
    }
    return true;
  }

  /** `safeSequence` is the filled prefix of the C `safe_sequence` array and
      `passes` the final value of its `iterations` counter. The iteration cap
      never decides the outcome: the result is the uncapped greedy run, and
      the cap is reached only when there are no processes at all, in the same
      pass that finds nobody. */
  method IsSafeState(available: Vector, allocation: Matrix, need: Matrix)
    returns (safe: bool, safeSequence: seq<nat>, passes: nat)
    requires Shaped(available, allocation, need)
    ensures Verdict(safe, safeSequence) == Check(available, allocation, need)
    ensures GreedyRun(available, allocation, need, safeSequence)
    ensures safe <==> SafeOrder(available, allocation, need, safeSequence)
    ensures passes == |safeSequence| + 1
    ensures passes > 2 * |need| <==> |need| == 0
  {
    var n := |need|;

    var work: Vector := [];
    var i := 0;
    while i < |available|
      invariant 0 <= i <= |available|
      invariant work == available[..i]
    {
      work := work + [available[i]];
      i := i + 1;
    }

    var s := Scan(work, seq(n, _ => false), []);
    assert s == Start(available, n);
    StartIsConsistent(available, allocation, need);
    ghost var final := Run(available, allocation, need, s);

    var found := false;
    var iterations := 0;
    while true
      invariant Consistent(available, allocation, need, s)
      invariant Run(available, allocation, need, s) == final
      invariant iterations == |s.order|
      decreases n - |s.order|
    {
      var before := s;
      found, s := ScanOnce(available, allocation, need, before);
      if found {
        ChooseKeepsConsistent(available, allocation, need, before, FirstEligible(need, before, 0).p);
      }
      iterations := iterations + 1;

      if iterations > 2 * n {
        break;
      }
      if !found {
        break;
      }
    }

    safeSequence := s.order;
    passes := iterations;
    safe := AllDone(s.finish);
  }
}
