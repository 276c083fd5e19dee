/** Concrete snapshots with three resource types and five processes, the
    dimensions the C program is compiled for, plus one two-process snapshot
    showing why completeness needs non-negative allocations.
 */
module Examples {
  import opened Resources
  import opened Orders
  import opened Greedy
  import opened Need
  import opened Theorems

  const TextbookAvailable: Vector := [3, 3, 2]
  const TextbookMax: Matrix := [[7, 5, 3], [3, 2, 2], [9, 0, 2], [2, 2, 2], [4, 3, 3]]
  const TextbookAllocation: Matrix := [[0, 1, 0], [2, 0, 0], [3, 0, 2], [2, 1, 1], [0, 0, 2]]
  const TextbookNeed: Matrix := [[7, 4, 3], [1, 2, 2], [6, 0, 0], [0, 1, 1], [4, 3, 1]]

  /** The classic snapshot: need is max - allocation, and the check, which
      restarts every scan at process 0, finishes P1, P3, P0, P2, P4 in
      that order. */
  lemma TextbookSnapshot()
    ensures NeedOf(TextbookMax, TextbookAllocation) == TextbookNeed
    ensures Check(TextbookAvailable, TextbookAllocation, TextbookNeed) == Verdict(true, [1, 3, 0, 2, 4])
  {
    TextbookNeedRows();
    TextbookGreedyRun();
    CheckIsTheGreedyRun(TextbookAvailable, TextbookAllocation, TextbookNeed, [1, 3, 0, 2, 4]);
  }

  lemma TextbookNeedRows()
    ensures NeedOf(TextbookMax, TextbookAllocation) == TextbookNeed
  {
    var need := NeedOf(TextbookMax, TextbookAllocation);
    assert need[0] == TextbookNeed[0];
    assert need[1] == TextbookNeed[1];
    assert need[2] == TextbookNeed[2];
    assert need[3] == TextbookNeed[3];
    assert need[4] == TextbookNeed[4];
  }

  lemma TextbookGreedyRun()
    ensures GreedyRun(TextbookAvailable, TextbookAllocation, TextbookNeed, [1, 3, 0, 2, 4])
  {
    TextbookValid();
    TextbookLowestFirst();
    TextbookCoversAll();
  }

  lemma TextbookValid()
    ensures ValidOrder(TextbookAvailable, TextbookAllocation, TextbookNeed, [1, 3, 0, 2, 4])
  {
    TextbookPrefix5();
  }

  // The prefixes of P1, P3, P0, P2, P4 and the work each leaves behind.
  lemma TextbookPrefix1()
    ensures ValidOrder(TextbookAvailable, TextbookAllocation, TextbookNeed, [1])
    ensures Released(TextbookAvailable, TextbookAllocation, [1]) == [5, 3, 2]
  {
    var empty: seq<nat> := [];
    assert Released(TextbookAvailable, TextbookAllocation, empty) == [3, 3, 2];
    AppendValid(TextbookAvailable, TextbookAllocation, TextbookNeed, empty, 1);
    assert empty + [1] == [1];
    assert AddRow([3, 3, 2], TextbookAllocation[1]) == [5, 3, 2];
  }

  lemma TextbookPrefix2()
    ensures ValidOrder(TextbookAvailable, TextbookAllocation, TextbookNeed, [1, 3])
    ensures Released(TextbookAvailable, TextbookAllocation, [1, 3]) == [7, 4, 3]
  {
    TextbookPrefix1();
    AppendValid(TextbookAvailable, TextbookAllocation, TextbookNeed, [1], 3);
    assert [1] + [3] == [1, 3];
    assert AddRow([5, 3, 2], TextbookAllocation[3]) == [7, 4, 3];
  }

  lemma TextbookPrefix3()
    ensures ValidOrder(TextbookAvailable, TextbookAllocation, TextbookNeed, [1, 3, 0])
    ensures Released(TextbookAvailable, TextbookAllocation, [1, 3, 0]) == [7, 5, 3]
  {
    TextbookPrefix2();
    AppendValid(TextbookAvailable, TextbookAllocation, TextbookNeed, [1, 3], 0);
    assert [1, 3] + [0] == [1, 3, 0];
    assert AddRow([7, 4, 3], TextbookAllocation[0]) == [7, 5, 3];
  }

  lemma TextbookPrefix4()
    ensures ValidOrder(TextbookAvailable, TextbookAllocation, TextbookNeed, [1, 3, 0, 2])
    ensures Released(TextbookAvailable, TextbookAllocation, [1, 3, 0, 2]) == [10, 5, 5]
  {
    TextbookPrefix3();
    AppendValid(TextbookAvailable, TextbookAllocation, TextbookNeed, [1, 3, 0], 2);
    assert [1, 3, 0] + [2] == [1, 3, 0, 2];
    assert AddRow([7, 5, 3], TextbookAllocation[2]) == [10, 5, 5];
  }

  lemma TextbookPrefix5()
    ensures ValidOrder(TextbookAvailable, TextbookAllocation, TextbookNeed, [1, 3, 0, 2, 4])
    ensures Released(TextbookAvailable, TextbookAllocation, [1, 3, 0, 2, 4]) == [10, 5, 7]
  {
    TextbookPrefix4();
    AppendValid(TextbookAvailable, TextbookAllocation, TextbookNeed, [1, 3, 0, 2], 4);
    assert [1, 3, 0, 2] + [4] == [1, 3, 0, 2, 4];
    assert AddRow([10, 5, 5], TextbookAllocation[4]) == [10, 5, 7];
  }

  lemma TextbookLowestFirst()
    ensures InRange([1, 3, 0, 2, 4], 5)
    ensures LowestFirst(TextbookAvailable, TextbookAllocation, TextbookNeed, [1, 3, 0, 2, 4])
  {
    var av, al, nd := TextbookAvailable, TextbookAllocation, TextbookNeed;
    var order := [1, 3, 0, 2, 4];
    forall k, q | 0 <= k < 5 && 0 <= q < order[k]
      ensures q in order[..k] || !Fits(nd[q], Released(av, al, order[..k]))
    {
      if k == 0 {
        assert order[..0] == [];
        assert nd[0][0] > 3;
      } else if k == 1 {
        assert order[..1] == [1];
        TextbookPrefix1();
        assert nd[0][0] > 5 && nd[2][0] > 5;
      } else if k == 3 {
        assert order[..3] == [1, 3, 0];
        TextbookPrefix3();
      } else if k == 4 {
        assert order[..4] == [1, 3, 0, 2];
        TextbookPrefix4();
      }
    }
  }

  lemma TextbookCoversAll()
    ensures forall q :: 0 <= q < 5 ==> q in [1, 3, 0, 2, 4]
  {
    var order := [1, 3, 0, 2, 4];
    forall q | 0 <= q < 5
      ensures q in order
    {
      if q == 0 { assert order[2] == 0; }
      else if q == 1 { assert order[0] == 1; }
      else if q == 2 { assert order[3] == 2; }
      else if q == 3 { assert order[1] == 3; }
      else { assert order[4] == 4; }
    }
  }

  /** Process order the classic presentation gives for the same snapshot
      (continuing the scan after each pick instead of restarting it): also a
      safe sequence, but not the one the check returns. */
  lemma TextbookOtherSafeSequence()
    ensures SafeOrder(TextbookAvailable, TextbookAllocation, TextbookNeed, [1, 3, 4, 0, 2])
    ensures Check(TextbookAvailable, TextbookAllocation, TextbookNeed).sequence != [1, 3, 4, 0, 2]
  {
    TextbookOtherValid();
    TextbookOtherCoversAll();
    TextbookSnapshot();
    assert [1, 3, 0, 2, 4][2] != [1, 3, 4, 0, 2][2];
  }

  lemma TextbookOtherCoversAll()
    ensures forall q :: 0 <= q < 5 ==> q in [1, 3, 4, 0, 2]
  {
    var order := [1, 3, 4, 0, 2];
    forall q | 0 <= q < 5
      ensures q in order
    {
      if q == 0 { assert order[3] == 0; }
      else if q == 1 { assert order[0] == 1; }
      else if q == 2 { assert order[4] == 2; }
      else if q == 3 { assert order[1] == 3; }
      else { assert order[2] == 4; }
    }
  }

  lemma TextbookOtherValid()
    ensures ValidOrder(TextbookAvailable, TextbookAllocation, TextbookNeed, [1, 3, 4, 0, 2])
  {
    TextbookOtherPrefix5();
  }

  // The prefixes of P1, P3, P4, P0, P2 past the common start P1, P3, and
  // the work each leaves behind.
  lemma TextbookOtherPrefix3()
    ensures ValidOrder(TextbookAvailable, TextbookAllocation, TextbookNeed, [1, 3, 4])
    ensures Released(TextbookAvailable, TextbookAllocation, [1, 3, 4]) == [7, 4, 5]
  {
    TextbookPrefix2();
    AppendValid(TextbookAvailable, TextbookAllocation, TextbookNeed, [1, 3], 4);
    assert [1, 3] + [4] == [1, 3, 4];
    assert AddRow([7, 4, 3], TextbookAllocation[4]) == [7, 4, 5];
  }

  lemma TextbookOtherPrefix4()
    ensures ValidOrder(TextbookAvailable, TextbookAllocation, TextbookNeed, [1, 3, 4, 0])
    ensures Released(TextbookAvailable, TextbookAllocation, [1, 3, 4, 0]) == [7, 5, 5]
  {
    TextbookOtherPrefix3();
    AppendValid(TextbookAvailable, TextbookAllocation, TextbookNeed, [1, 3, 4], 0);
    assert [1, 3, 4] + [0] == [1, 3, 4, 0];
    assert AddRow([7, 4, 5], TextbookAllocation[0]) == [7, 5, 5];
  }

  lemma TextbookOtherPrefix5()
    ensures ValidOrder(TextbookAvailable, TextbookAllocation, TextbookNeed, [1, 3, 4, 0, 2])
    ensures Released(TextbookAvailable, TextbookAllocation, [1, 3, 4, 0, 2]) == [10, 5, 7]
  {
    TextbookOtherPrefix4();
    AppendValid(TextbookAvailable, TextbookAllocation, TextbookNeed, [1, 3, 4, 0], 2);
    assert [1, 3, 4, 0] + [2] == [1, 3, 4, 0, 2];
    assert AddRow([7, 5, 5], TextbookAllocation[2]) == [10, 5, 7];
  }

  /** A need matrix with a non-zero need in every resource of every process. */
  const ScarceNeed: Matrix := [[7, 4, 3], [1, 2, 2], [6, 1, 1], [1, 1, 1], [4, 3, 1]]

  /** Nothing available and every need entry positive: nobody can run. */
  lemma NothingAvailable()
    ensures forall i, j :: 0 <= i < 5 && 0 <= j < 3 ==> ScarceNeed[i][j] > 0
    ensures Check([0, 0, 0], TextbookAllocation, ScarceNeed) == Verdict(false, [])
  {
    var nd := ScarceNeed;
    forall i | 0 <= i < 5
      ensures !Fits(nd[i], [0, 0, 0])
    {
      assert nd[i][0] > 0;
    }
    EmptyRunIffNothingFits([0, 0, 0], TextbookAllocation, nd);
  }

  /** With a negative allocation the greedy check can miss a safe sequence:
      P0 fits first but its "release" lowers the work below what P1 needs,
      while running P1 first would let both finish. The C program never
      rejects negative input, so completeness holds only for non-negative
      allocations. */
  lemma NegativeAllocationBreaksCompleteness()
    ensures !Check([1], [[-1], [0]], [[0], [1]]).safe
    ensures SafeSystem([1], [[-1], [0]], [[0], [1]])
  {
    NegativeAllocationGreedyRun();
    CheckIsTheGreedyRun([1], [[-1], [0]], [[0], [1]], [0]);
    NegativeAllocationSafeOrder();
  }

  lemma NegativeAllocationGreedyRun()
    ensures GreedyRun([1], [[-1], [0]], [[0], [1]], [0])
  {
    var av: Vector, al: Matrix, nd: Matrix := [1], [[-1], [0]], [[0], [1]];
    var run: seq<nat> := [0];
    assert run[..0] == [];
    assert Released(av, al, run) == [0];
    assert !Fits(nd[1], [0]) by { assert nd[1][0] > 0; }
  }

  lemma NegativeAllocationSafeOrder()
    ensures SafeOrder([1], [[-1], [0]], [[0], [1]], [1, 0])
  {
    var av: Vector, al: Matrix, nd: Matrix := [1], [[-1], [0]], [[0], [1]];
    var other: seq<nat> := [1, 0];
    assert other[..0] == [];
    assert other[..1] == [1];
    assert [1][..0] == [];
    assert Released(av, al, [1]) == [1];
    assert other[1] == 0;
  }
}
