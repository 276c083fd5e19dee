/** The need matrix derived from the maximum claims and the allocations. */
module Need {
  import opened Resources

  /** `max` and `allocation` have the same shape. */
  predicate SameShape(max: Matrix, allocation: Matrix) {
    |max| == |allocation| && forall i :: 0 <= i < |max| ==> |max[i]| == |allocation[i]|
  }

  /** Need = Max - Allocation, entry by entry, with no clamping at zero. */
  function NeedOf(max: Matrix, allocation: Matrix): (need: Matrix)
    requires SameShape(max, allocation)
    ensures SameShape(need, max)
  {
    seq(|max|, i requires 0 <= i < |max| =>
      seq(|max[i]|, j requires 0 <= j < |max[i]| => max[i][j] - allocation[i][j]))
  }

  /** The nested loop that fills the need matrix row by row. */
  method CalculateNeed(max: Matrix, allocation: Matrix) returns (need: Matrix)
    requires SameShape(max, allocation)
    ensures SameShape(need, max)
    ensures forall i, j :: 0 <= i < |max| && 0 <= j < |max[i]| ==>
      need[i][j] == max[i][j] - allocation[i][j]
    ensures need == NeedOf(max, allocation)
  {
    need := [];
    var i := 0;
    while i < |max|
      invariant 0 <= i <= |max| && |need| == i
      invariant forall k :: 0 <= k < i ==> need[k] == NeedOf(max, allocation)[k]
    {
      var row: Vector := [];
      var j := 0;
      while j < |max[i]|
        invariant 0 <= j <= |max[i]| && |row| == j
        invariant forall c :: 0 <= c < j ==> row[c] == max[i][c] - allocation[i][c]
      {
        row := row + [max[i][j] - allocation[i][j]];
        j := j + 1;
      }
      need := need + [row];
      i := i + 1;
    }
  }

  /** Round trip: giving every process its need on top of its allocation
      brings it back to its maximum claim. */
  lemma NeedRestoresMax(max: Matrix, allocation: Matrix)
    requires SameShape(max, allocation)
    ensures forall i :: 0 <= i < |max| ==>
      AddRow(allocation[i], NeedOf(max, allocation)[i]) == max[i]
  {
    var need := NeedOf(max, allocation);
    forall i | 0 <= i < |max|
      ensures AddRow(allocation[i], need[i]) == max[i]
    {
      var r := AddRow(allocation[i], need[i]);
      assert forall j :: 0 <= j < |r| ==> r[j] == max[i][j];
    }
  }

  /** A need entry is negative exactly where the process holds more than it
      claims; such an entry fits in any non-negative work column. */
  lemma NegativeNeedMeansOverAllocation(max: Matrix, allocation: Matrix, i: nat, j: nat, work: int)
    requires SameShape(max, allocation)
    requires i < |max| && j < |max[i]|
    ensures NeedOf(max, allocation)[i][j] < 0 <==> allocation[i][j] > max[i][j]
    ensures allocation[i][j] >= max[i][j] && work >= 0 ==> NeedOf(max, allocation)[i][j] <= work
  {
  }
}
