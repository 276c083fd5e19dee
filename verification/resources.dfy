/** Resource vectors, matrices and the column sums the safety check relies on.

    A vector has one entry per resource type (R of them); a matrix has one
    row per process (N of them), each row a vector. Entries are unbounded
    integers: the C program stores them in `int` and never checks for
    overflow, which this model does not reproduce.
 */
module Resources {

  type Vector = seq<int>
  type Matrix = seq<Vector>

  /** `m` has `rows` rows of `cols` entries each. */
  predicate IsMatrix(m: Matrix, rows: nat, cols: nat) {
    |m| == rows && forall i :: 0 <= i < rows ==> |m[i]| == cols
  }

  /** No entry of `m` is negative. */
  predicate NonNegative(m: Matrix) {
    forall i, j :: 0 <= i < |m| && 0 <= j < |m[i]| ==> 0 <= m[i][j]
  }

  /** `need <= work` in every resource column. */
  predicate Fits(need: Vector, work: Vector)
    requires |need| == |work|
  {
    forall j :: 0 <= j < |work| ==> need[j] <= work[j]
  }

  /** The column-wise sum of two vectors: what `work` becomes when a
      process returns the resources of `row`. */
  function AddRow(work: Vector, row: Vector): (r: Vector)
    requires |work| == |row|
    ensures |r| == |work|
  {
    seq(|work|, j requires 0 <= j < |work| => work[j] + row[j])
  }

  /** Number of set flags. */
  function CountTrue(f: seq<bool>): (c: nat)
    ensures c <= |f|
  {
    if |f| == 0 then 0
    else CountTrue(f[..|f| - 1]) + (if f[|f| - 1] then 1 else 0)
  }

  lemma {:induction false} CountTrueNone(f: seq<bool>)
    requires forall i :: 0 <= i < |f| ==> !f[i]
    ensures CountTrue(f) == 0
  {
    if |f| > 0 {
      CountTrueNone(f[..|f| - 1]);
    }
  }

  /** Setting one clear flag raises the count by exactly one. */
  lemma {:induction false} CountTrueSet(f: seq<bool>, p: nat)
    requires p < |f| && !f[p]
    ensures CountTrue(f[p := true]) == CountTrue(f) + 1
  {
    var g := f[p := true];
    if p == |f| - 1 {
      assert g[..|g| - 1] == f[..|f| - 1];
    } else {
      assert g[..|g| - 1] == f[..|f| - 1][p := true];
      CountTrueSet(f[..|f| - 1], p);
    }
  }

  /** The count reaches the length exactly when every flag is set. */
  lemma {:induction false} CountTrueFull(f: seq<bool>)
    ensures CountTrue(f) == |f| <==> forall i :: 0 <= i < |f| ==> f[i]
  {
    if |f| > 0 {
      var init := f[..|f| - 1];
      CountTrueFull(init);
      assert forall i :: 0 <= i < |init| ==> init[i] == f[i];
    }
  }

  /** Column `j` of `m` has an entry in every row. */
  predicate HasColumn(m: Matrix, j: nat) {
    forall i :: 0 <= i < |m| ==> j < |m[i]|
  }

  /** Sum of column `j` over the first `n` rows of `m` whose flag in `f` is set. */
  function Held(m: Matrix, f: seq<bool>, j: nat, n: nat): int
    requires |f| == |m| && n <= |m| && HasColumn(m, j)
  {
    if n == 0 then 0
    else Held(m, f, j, n - 1) + (if f[n - 1] then m[n - 1][j] else 0)
  }

  /** Sum of column `j` over the first `n` rows of `m`. */
  function ColumnTotal(m: Matrix, j: nat, n: nat): int
    requires n <= |m| && HasColumn(m, j)
  {
    if n == 0 then 0 else ColumnTotal(m, j, n - 1) + m[n - 1][j]
  }

  lemma {:induction false} HeldNone(m: Matrix, f: seq<bool>, j: nat, n: nat)
    requires |f| == |m| && n <= |m| && HasColumn(m, j)
    requires forall i :: 0 <= i < |f| ==> !f[i]
    ensures Held(m, f, j, n) == 0
  {
    if n > 0 {
      HeldNone(m, f, j, n - 1);
    }
  }

  lemma {:induction false} HeldAll(m: Matrix, f: seq<bool>, j: nat, n: nat)
    requires |f| == |m| && n <= |m| && HasColumn(m, j)
    requires forall i :: 0 <= i < |f| ==> f[i]
    ensures Held(m, f, j, n) == ColumnTotal(m, j, n)
  {
    if n > 0 {
      HeldAll(m, f, j, n - 1);
    }
  }

  /** Setting the flag of row `p` adds exactly that row's entry to the sum. */
  lemma {:induction false} HeldSet(m: Matrix, f: seq<bool>, p: nat, j: nat, n: nat)
    requires |f| == |m| && n <= |m| && HasColumn(m, j)
    requires p < |f| && !f[p]
    ensures Held(m, f[p := true], j, n) == Held(m, f, j, n) + (if p < n then m[p][j] else 0)
  {
    if n > 0 {
      HeldSet(m, f, p, j, n - 1);
    }
  }

  /** With non-negative entries, setting more flags never lowers the sum. */
  lemma {:induction false} HeldMonotone(m: Matrix, f: seq<bool>, g: seq<bool>, j: nat, n: nat)
    requires |f| == |m| && |g| == |m| && n <= |m| && HasColumn(m, j)
    requires NonNegative(m)
    requires forall i :: 0 <= i < |m| && f[i] ==> g[i]
    ensures Held(m, f, j, n) <= Held(m, g, j, n)
  {
    if n > 0 {
      HeldMonotone(m, f, g, j, n - 1);
    }
  }
}
