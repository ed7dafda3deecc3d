/** The per-row reduction every access function performs, and the accumulator
    it feeds.

    A row of the embedding matrix is a sequence of reals (the C++ `double`s,
    taken as exact reals). For each position of the access pattern the program
    squares and sums the first `cols` entries of the row (one pass, or `reps`
    passes added together), divides by `cols`, and adds that into `result`;
    at the end `result` is divided by the pattern length. The prefetch hint
    changes none of these operations, so two strategies that read the same
    rows compute the same sequence of contributions. */
module Reduction {

  type Row = seq<real>
  type Matrix = seq<Row>

  /** Every loaded row has the program's embedding dimension. */
  ghost predicate RowsHaveWidth(matrix: Matrix, cols: nat)
  {
    forall r :: 0 <= r < |matrix| ==> |matrix[r]| == cols
  }

  /** Every index of the access pattern names a loaded row (the pattern is
      made of row indices looked up in the loaded vocabulary). */
  ghost predicate InRange(p: seq<nat>, rows: nat)
  {
    forall i :: 0 <= i < |p| ==> p[i] < rows
  }

  ghost predicate ValidAccess(matrix: Matrix, p: seq<nat>, cols: nat)
  {
    RowsHaveWidth(matrix, cols) && InRange(p, |matrix|)
  }

  /** `row[0]*row[0] + ... + row[cols-1]*row[cols-1]`, added left to right. */
  function SquareSum(row: Row, cols: nat): real
    requires cols <= |row|
  {
    if cols == 0 then 0.0 else SquareSum(row, cols - 1) + row[cols - 1] * row[cols - 1]
  }

  /** `reps` passes of that sum added into `row_sum`. */
  function RepeatedSquareSum(row: Row, cols: nat, reps: nat): real
    requires cols <= |row|
  {
    if reps == 0 then 0.0 else RepeatedSquareSum(row, cols, reps - 1) + SquareSum(row, cols)
  }

  lemma {:induction false} SquareSumNonNegative(row: Row, cols: nat)
    requires cols <= |row|
    ensures SquareSum(row, cols) >= 0.0
  {
    if cols > 0 {
      SquareSumNonNegative(row, cols - 1);
      var x := row[cols - 1];
      assert x * x >= 0.0 by {
        if x < 0.0 { assert x * x == (-x) * (-x); }
      }
    }
  }

  /** `reps` passes add up to `reps` times one pass. */
  lemma {:induction false} RepeatedSquareSumScales(row: Row, cols: nat, reps: nat)
    requires cols <= |row|
    ensures RepeatedSquareSum(row, cols, reps) == reps as real * SquareSum(row, cols)
  {
    if reps > 0 {
      RepeatedSquareSumScales(row, cols, reps - 1);
    }
  }

  /** The value of `result` after the positions 0 .. m-1 of the 25-column
      programs have each added `row_sum / cols` (one pass of the squared sum
      over row `p[i]`). */
  function Accumulated(matrix: Matrix, p: seq<nat>, cols: nat, m: nat): real
    requires ValidAccess(matrix, p, cols) && cols > 0 && m <= |p|
  {
    if m == 0 then 0.0
    else Accumulated(matrix, p, cols, m - 1) + SquareSum(matrix[p[m - 1]], cols) / cols as real
  }

  /** The value `regularAccess`, `learnableAccess` and `ngram_prefetch` return:
      the accumulated mean squares of every position, divided by `n`. */
  function MeanSquareResult(matrix: Matrix, p: seq<nat>, cols: nat): real
    requires ValidAccess(matrix, p, cols) && cols > 0 && |p| > 0
  {
    Accumulated(matrix, p, cols, |p|) / |p| as real
  }

  /** The innermost loop: the squared sum of one row. */
  method RowSquareSum(row: Row, cols: nat) returns (s: real)
    requires cols <= |row|
    ensures s == SquareSum(row, cols)
  {
    s := 0.0;
    var j := 0;
    while j < cols
      invariant j <= cols
      invariant s == SquareSum(row, j)
    {
      s := s + row[j] * row[j];
      j := j + 1;
    }
  }

  /** The `n` loop around it: `reps` passes added into `row_sum`. */
  method RepeatedRowSquareSum(row: Row, cols: nat, reps: nat) returns (rowSum: real)
    requires cols <= |row|
    ensures rowSum == RepeatedSquareSum(row, cols, reps)
  {
    rowSum := 0.0;
    var n := 0;
    while n < reps
      invariant n <= reps
      invariant rowSum == RepeatedSquareSum(row, cols, n)
    {
      var dot := RowSquareSum(row, cols);
      rowSum := rowSum + dot;
      n := n + 1;
    }
  }

  /** The rows read after position i are those read before it, then `p[i]`. */
  lemma PrefixStep(p: seq<nat>, i: nat)
    requires i < |p|
    ensures p[..i + 1] == p[..i] + [p[i]]
  {
  }

  /** One position of a 25-column access loop: the squared sum of row `p[i]`,
      divided by `cols`, added into `result`. */
  method AddRowMean(matrix: Matrix, p: seq<nat>, cols: nat, i: nat, result: real) returns (updated: real)
    requires ValidAccess(matrix, p, cols) && cols > 0 && i < |p|
    requires result == Accumulated(matrix, p, cols, i)
    ensures updated == Accumulated(matrix, p, cols, i + 1)
  {
    var rowSum := RowSquareSum(matrix[p[i]], cols);
    updated := result + rowSum / cols as real;
  }
}
