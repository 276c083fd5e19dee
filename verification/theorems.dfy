/** What the verdict of the safety check means.

    The check is sound (a safe verdict comes with a safe sequence), complete
    when no allocation is negative (a safe sequence exists only if the check
    says safe), deterministic (its sequence is the one greedy run of the
    snapshot), and unsafe with an empty sequence exactly when nobody fits
    the initial `available` vector.
 */
module Theorems {
  import opened Resources
  import opened Orders
  import opened Greedy
  import opened Need

  /** The check returns the greedy run of the snapshot, and no other order
      is one: the safe sequence is a function of the input alone. */
  lemma CheckIsTheGreedyRun(available: Vector, allocation: Matrix, need: Matrix, order: seq<nat>)
    requires Shaped(available, allocation, need)
    requires GreedyRun(available, allocation, need, order)
    ensures Check(available, allocation, need).sequence == order
  {
    GreedyRunUnique(available, allocation, need, Check(available, allocation, need).sequence, order);
  }

  /** If some safe sequence exists and no allocation is negative, a process
      missing from a valid order fits in what that order released. */
  lemma MissingProcessFits(available: Vector, allocation: Matrix, need: Matrix,
                           order: seq<nat>, other: seq<nat>) returns (q: nat)
    requires Shaped(available, allocation, need) && NonNegative(allocation)
    requires ValidOrder(available, allocation, need, order) && |order| < |need|
    requires SafeOrder(available, allocation, need, other)
    ensures q < |need| && q !in order
    ensures Fits(need[q], Released(available, allocation, order))
  {
    var missing := MissingIndex(order, |need|);
    assert missing in other;
    var k := FirstOutside(other, order);
    q := other[k];
    var prefix := other[..k];
    assert Fits(need[q], Released(available, allocation, prefix));
    ReleasedMonotone(available, allocation, prefix, order);
    FitsMonotone(need[q], Released(available, allocation, prefix), Released(available, allocation, order));
  }

  /** The first position of `other` holding an element missing from `order`. */
  lemma FirstOutside(other: seq<nat>, order: seq<nat>) returns (k: nat)
    requires exists x :: x in other && x !in order
    ensures k < |other| && other[k] !in order
    ensures forall x :: x in other[..k] ==> x in order
  {
    k := 0;
    while other[k] in order
      invariant k < |other|
      invariant forall y :: y in other[..k] ==> y in order
      invariant exists x :: x in other[k..] && x !in order
      decreases |other| - k
    {
      assert other[k..] == [other[k]] + other[k + 1..];
      assert other[..k + 1] == other[..k] + [other[k]];
      k := k + 1;
    }
  }

  /** A need that fits in one work vector fits in any larger one. */
  lemma FitsMonotone(needRow: Vector, small: Vector, large: Vector)
    requires |needRow| == |small| == |large|
    requires forall j :: 0 <= j < |small| ==> small[j] <= large[j]
    requires Fits(needRow, small)
    ensures Fits(needRow, large)
  {
  }

  /** Completeness of the greedy strategy: with non-negative allocations,
      if any safe sequence exists, the greedy run finishes every process. */
  lemma GreedyCompletes(available: Vector, allocation: Matrix, need: Matrix,
                        order: seq<nat>, other: seq<nat>)
    requires Shaped(available, allocation, need) && NonNegative(allocation)
    requires GreedyRun(available, allocation, need, order)
    requires SafeOrder(available, allocation, need, other)
    ensures |order| == |need|
  {
    CountFinishedBy(order, |need|);
    if |order| < |need| {
      var q := MissingProcessFits(available, allocation, need, order, other);
    }
  }

  /** The verdict is right: with non-negative allocations the check says
      safe exactly when a safe sequence exists. */
  lemma SafeIffSafeSequenceExists(available: Vector, allocation: Matrix, need: Matrix)
    requires Shaped(available, allocation, need) && NonNegative(allocation)
    ensures Check(available, allocation, need).safe <==> SafeSystem(available, allocation, need)
  {
    var v := Check(available, allocation, need);
    if SafeSystem(available, allocation, need) {
      var other :| SafeOrder(available, allocation, need, other);
      GreedyCompletes(available, allocation, need, v.sequence, other);
    }
  }

  /** The check takes nobody exactly when no need fits in `available`; it is
      then unsafe unless there are no processes. */
  lemma EmptyRunIffNothingFits(available: Vector, allocation: Matrix, need: Matrix)
    requires Shaped(available, allocation, need)
    ensures Check(available, allocation, need).sequence == []
        <==> forall i :: 0 <= i < |need| ==> !Fits(need[i], available)
    ensures Check(available, allocation, need).sequence == [] && |need| > 0
        ==> !Check(available, allocation, need).safe
  {
    if forall i :: 0 <= i < |need| ==> !Fits(need[i], available) {
      var empty: seq<nat> := [];
      assert Released(available, allocation, empty) == available;
      assert GreedyRun(available, allocation, need, empty);
      CheckIsTheGreedyRun(available, allocation, need, empty);
    }
  }
}
