/** `optimal_prefetching.cpp`: a fixed-lookahead prefetch schedule (hint the
    row k positions ahead), its baseline `regularAccess`, and the sweep of
    `main` over k = 1 .. 20 that keeps the configuration with the best
    speedup.

    The rows here have 300 columns and every position squares and sums its
    row several times (the dot product is repeated): twice in
    `regularAccess` and in the first loop of `prefetchedAccess`, but
    `NUM_COLS` times in the tail loop of `prefetchedAccess`. `Folded` adds
    the per-position contributions with the number of passes given by
    `Passes`, which covers all three loops. */
module OptimalPrefetching {
  import opened Common
  import opened Reduction

  /** GloVe embedding dimension. */
  const NUM_COLS: nat := 300
  /** The lookahead distances tried by the sweep, both ends included. */
  const PREFETCH_AHEAD_START: nat := 1
  const PREFETCH_AHEAD_END: nat := 20
  /** Timed repetitions of each test per lookahead distance. */
  const NUM_RUNS: nat := 10
  /** The repetitions of the dot product in `regularAccess` and in the first
      loop of `prefetchedAccess`. */
  const PASSES: nat := 2

  // The per-position reduction.

  /** The repetitions of the dot product at position i: `PASSES` before
      position `split`, `tailPasses` from there on. */
  function Passes(i: nat, split: nat, tailPasses: nat): nat
  {
    if i < split then PASSES else tailPasses
  }

  /** `result` after positions 0 .. m-1 have each added `row_sum / NUM_COLS`,
      where `row_sum` is `Passes` repetitions of the squared sum of row `p[i]`. */
  function Folded(matrix: Matrix, p: seq<nat>, split: nat, tailPasses: nat, m: nat): real
    requires ValidAccess(matrix, p, NUM_COLS) && m <= |p|
  {
    if m == 0 then 0.0
    else
      var rowSum := RepeatedSquareSum(matrix[p[m - 1]], NUM_COLS, Passes(m - 1, split, tailPasses));
      Folded(matrix, p, split, tailPasses, m - 1) + rowSum / NUM_COLS as real
  }

  /** What `regularAccess` returns: two passes at every position. */
  function RegularResult(matrix: Matrix, p: seq<nat>): real
    requires ValidAccess(matrix, p, NUM_COLS) && |p| > 0
  {
    Folded(matrix, p, |p|, PASSES, |p|) / |p| as real
  }

  /** What `prefetchedAccess` returns as written: two passes at the positions
      of the first loop (before n - k), `NUM_COLS` passes in the tail. */
  function PrefetchedResult(matrix: Matrix, p: seq<nat>, k: nat): real
    requires ValidAccess(matrix, p, NUM_COLS) && 0 < |p| && k <= |p|
  {
    Folded(matrix, p, |p| - k, NUM_COLS, |p|) / |p| as real
  }

  /** One position of any of the three loops: `reps` passes of the squared
      sum over row `p[i]`, divided by `NUM_COLS`, added into `result`. */
  method AddRow(matrix: Matrix, p: seq<nat>, split: nat, tailPasses: nat, i: nat, reps: nat, result: real)
    returns (updated: real)
    requires ValidAccess(matrix, p, NUM_COLS) && i < |p|
    requires reps == Passes(i, split, tailPasses)
    requires result == Folded(matrix, p, split, tailPasses, i)
    ensures updated == Folded(matrix, p, split, tailPasses, i + 1)
  {
    var rowSum := RepeatedRowSquareSum(matrix[p[i]], NUM_COLS, reps);
    updated := result + rowSum / NUM_COLS as real;
  }

  // The hints of the lookahead schedule.

  /** The row hinted at position i with lookahead k: `p[i + k]` while
      i < n - k, none in the tail. */
  function LookaheadHint(p: seq<nat>, k: nat, i: nat): Option<nat>
  {
    if i + k < |p| then Some(p[i + k]) else None
  }

  /** The hints issued at positions 0 .. m-1. */
  ghost function LookaheadHints(p: seq<nat>, k: nat, m: nat): (hs: seq<Option<nat>>)
    ensures |hs| == m
  {
    if m == 0 then [] else LookaheadHints(p, k, m - 1) + [LookaheadHint(p, k, m - 1)]
  }

  lemma {:induction false} LookaheadHintsAt(p: seq<nat>, k: nat, m: nat)
    ensures forall j :: 0 <= j < m ==> LookaheadHints(p, k, m)[j] == LookaheadHint(p, k, j)
  {
    if m > 0 {
      LookaheadHintsAt(p, k, m - 1);
    }
  }

  /** The schedule of `prefetchedAccess`: one hint slot per position; for
      k <= n, position i hints exactly when i < n - k, the hinted index i + k
      is a position of the pattern, and the row hinted is `p[i + k]`. */
  lemma LookaheadRule(p: seq<nat>, k: nat)
    requires k <= |p|
    ensures |LookaheadHints(p, k, |p|)| == |p|
    ensures forall i :: 0 <= i < |p| ==> (LookaheadHints(p, k, |p|)[i].Some? <==> i < |p| - k)
    ensures forall i :: 0 <= i < |p| && i < |p| - k ==>
      i + k < |p| && LookaheadHints(p, k, |p|)[i] == Some(p[i + k])
  {
    LookaheadHintsAt(p, k, |p|);
  }

  // The access functions.

  /** `regularAccess`: for every position in order, two passes of the squared
      sum of its row, divided by `NUM_COLS`, added into `result`; then the
      mean over the positions. */
  method RegularAccess(matrix: Matrix, p: seq<nat>) returns (result: real, ghost rowsRead: seq<nat>)
    requires ValidAccess(matrix, p, NUM_COLS) && |p| > 0
    ensures result == RegularResult(matrix, p)
    ensures rowsRead == p
  {
    result, rowsRead := 0.0, [];
    var i := 0;
    while i < |p|
      invariant i <= |p|
      invariant result == Folded(matrix, p, |p|, PASSES, i)
      invariant rowsRead == p[..i]
    {
      result := AddRow(matrix, p, |p|, PASSES, i, PASSES, result);
      rowsRead := rowsRead + [p[i]];
      PrefixStep(p, i);
      i := i + 1;
    }
    assert p[..|p|] == p;
    result := result / |p| as real;
  }

  /** `prefetchedAccess` as written: a first loop over positions 0 .. n-k-1
      hints row `p[i + k]` and adds two passes; the tail loop continues with
      the same counter over the last k positions, without hints, and adds
      `NUM_COLS` passes. Every position is read once, in order. `k <= n` is
      required: for k > n the unsigned `n - k` wraps around and the first
      loop reads past the end of the pattern. */
  method PrefetchedAccess(matrix: Matrix, p: seq<nat>, k: nat)
    returns (result: real, ghost hints: seq<Option<nat>>, ghost rowsRead: seq<nat>)
    requires ValidAccess(matrix, p, NUM_COLS) && 0 < |p| && k <= |p|
    ensures result == PrefetchedResult(matrix, p, k)
    ensures rowsRead == p
    ensures hints == LookaheadHints(p, k, |p|)
  {
    result, hints, rowsRead := 0.0, [], [];
    var i := 0;
    while i < |p| - k
      invariant i <= |p| - k
      invariant result == Folded(matrix, p, |p| - k, NUM_COLS, i)
      invariant rowsRead == p[..i]
      invariant hints == LookaheadHints(p, k, i)
    {
      var nextRow := p[i + k];  // _mm_prefetch of row nextRow
      hints := hints + [Some(nextRow)];
      result := AddRow(matrix, p, |p| - k, NUM_COLS, i, PASSES, result);
      rowsRead := rowsRead + [p[i]];
      PrefixStep(p, i);
      i := i + 1;
    }
    while i < |p|
      invariant |p| - k <= i <= |p|
      invariant result == Folded(matrix, p, |p| - k, NUM_COLS, i)
      invariant rowsRead == p[..i]
      invariant hints == LookaheadHints(p, k, i)
    {
      hints := hints + [None];
      result := AddRow(matrix, p, |p| - k, NUM_COLS, i, NUM_COLS, result);
      rowsRead := rowsRead + [p[i]];
      PrefixStep(p, i);
      i := i + 1;
    }
    assert p[..|p|] == p;
    result := result / |p| as real;
  }

  /** `prefetchedAccess` with the tail loop repeating the dot product twice,
      like the first loop and `regularAccess`: the same schedule of hints and
      reads, and now the same result as `regularAccess` for every k. */
  method PrefetchedAccessCorrected(matrix: Matrix, p: seq<nat>, k: nat)
    returns (result: real, ghost hints: seq<Option<nat>>, ghost rowsRead: seq<nat>)
    requires ValidAccess(matrix, p, NUM_COLS) && 0 < |p| && k <= |p|
    ensures result == RegularResult(matrix, p)
    ensures rowsRead == p
    ensures hints == LookaheadHints(p, k, |p|)
  {
    result, hints, rowsRead := 0.0, [], [];
    var i := 0;
    while i < |p| - k
      invariant i <= |p| - k
      invariant result == Folded(matrix, p, |p|, PASSES, i)
      invariant rowsRead == p[..i]
      invariant hints == LookaheadHints(p, k, i)
    {
      var nextRow := p[i + k];  // _mm_prefetch of row nextRow
      hints := hints + [Some(nextRow)];
      result := AddRow(matrix, p, |p|, PASSES, i, PASSES, result);
      rowsRead := rowsRead + [p[i]];
      PrefixStep(p, i);
      i := i + 1;
    }
    while i < |p|
      invariant |p| - k <= i <= |p|
      invariant result == Folded(matrix, p, |p|, PASSES, i)
      invariant rowsRead == p[..i]
      invariant hints == LookaheadHints(p, k, i)
    {
      hints := hints + [None];
      result := AddRow(matrix, p, |p|, PASSES, i, PASSES, result);
      rowsRead := rowsRead + [p[i]];
      PrefixStep(p, i);
      i := i + 1;
    }
    assert p[..|p|] == p;
    result := result / |p| as real;
  }

  // How far the as-written result is from the regular one.

  /** The squared sums of the rows at positions split .. m-1. */
  function TailSquares(matrix: Matrix, p: seq<nat>, split: nat, m: nat): real
    requires ValidAccess(matrix, p, NUM_COLS) && m <= |p|
  {
    if m <= split then 0.0
    else TailSquares(matrix, p, split, m - 1) + SquareSum(matrix[p[m - 1]], NUM_COLS)
  }

  lemma {:induction false} TailSquaresZeroIff(matrix: Matrix, p: seq<nat>, split: nat, m: nat)
    requires ValidAccess(matrix, p, NUM_COLS) && m <= |p|
    ensures TailSquares(matrix, p, split, m) >= 0.0
    ensures TailSquares(matrix, p, split, m) == 0.0 <==>
      forall i :: split <= i < m ==> SquareSum(matrix[p[i]], NUM_COLS) == 0.0
  {
    if m > split {
      TailSquaresZeroIff(matrix, p, split, m - 1);
      SquareSumNonNegative(matrix[p[m - 1]], NUM_COLS);
    }
  }

  /** Before `split`, the as-written fold adds what `regularAccess` adds; from
      `split` on, each position adds `NUM_COLS - 2` extra passes. */
  lemma {:induction false} FoldedExcess(matrix: Matrix, p: seq<nat>, split: nat, m: nat)
    requires ValidAccess(matrix, p, NUM_COLS) && m <= |p|
    ensures Folded(matrix, p, split, NUM_COLS, m)
         == Folded(matrix, p, |p|, PASSES, m) + (NUM_COLS - PASSES) as real * TailSquares(matrix, p, split, m) / NUM_COLS as real
  {
    if m > 0 {
      FoldedExcess(matrix, p, split, m - 1);
      var row := matrix[p[m - 1]];
      RepeatedSquareSumScales(row, NUM_COLS, PASSES);
      RepeatedSquareSumScales(row, NUM_COLS, NUM_COLS);
    }
  }

  /** The first loop of `prefetchedAccess` contributes exactly what
      `regularAccess` contributes over the same positions. */
  lemma FirstLoopAgrees(matrix: Matrix, p: seq<nat>, k: nat, m: nat)
    requires ValidAccess(matrix, p, NUM_COLS) && k <= |p| && m <= |p| - k
    ensures Folded(matrix, p, |p| - k, NUM_COLS, m) == Folded(matrix, p, |p|, PASSES, m)
  {
    FoldedExcess(matrix, p, |p| - k, m);
    TailSquaresZeroIff(matrix, p, |p| - k, m);
  }

  /** As written, `prefetchedAccess` returns what `regularAccess` returns
      exactly when every one of the last k rows read is all zeros in its
      first `NUM_COLS` columns (squared sum 0). */
  lemma PrefetchedMatchesRegularIff(matrix: Matrix, p: seq<nat>, k: nat)
    requires ValidAccess(matrix, p, NUM_COLS) && 0 < |p| && k <= |p|
    ensures PrefetchedResult(matrix, p, k) == RegularResult(matrix, p) <==>
      forall i :: |p| - k <= i < |p| ==> SquareSum(matrix[p[i]], NUM_COLS) == 0.0
  {
    FoldedExcess(matrix, p, |p| - k, |p|);
    TailSquaresZeroIff(matrix, p, |p| - k, |p|);
  }

  /** A row whose entries after the first are zero squares to its first entry
      squared. */
  lemma {:induction false} SquareSumLeading(row: Row, cols: nat)
    requires 1 <= cols <= |row|
    requires forall j :: 1 <= j < cols ==> row[j] == 0.0
    ensures SquareSum(row, cols) == row[0] * row[0]
  {
    if cols > 1 {
      SquareSumLeading(row, cols - 1);
    }
  }

  /** One row `[1.0, 0.0, ..., 0.0]`, a one-position pattern and k = 1: the
      whole pattern is the tail, so `prefetchedAccess` adds 300 passes where
      `regularAccess` adds 2, returning 1.0 instead of 2/300, and the results
      do not match. */
  lemma TailPassesCounterexample()
    ensures var row := seq(NUM_COLS, j => if j == 0 then 1.0 else 0.0);
      ValidAccess([row], [0], NUM_COLS) &&
      PrefetchedResult([row], [0], 1) == 1.0 &&
      RegularResult([row], [0]) == 2.0 / 300.0 &&
      !ResultsMatch(PrefetchedResult([row], [0], 1), RegularResult([row], [0]))
  {
    var row := seq(NUM_COLS, j => if j == 0 then 1.0 else 0.0);
    var matrix, p := [row], [0];
    assert ValidAccess(matrix, p, NUM_COLS);
    SquareSumLeading(row, NUM_COLS);
    RepeatedSquareSumScales(row, NUM_COLS, PASSES);
    RepeatedSquareSumScales(row, NUM_COLS, NUM_COLS);
    assert Folded(matrix, p, 0, NUM_COLS, 1) == 1.0;
    assert Folded(matrix, p, 1, PASSES, 1) == 2.0 / 300.0;
  }

  // The sweep of `main`.

  /** What one lookahead distance measured: the speedup (mean regular time
      over mean prefetched time) and the means and variances of the timed
      runs. Timing is an input of the model. */
  datatype Measurement = Measurement(speedup: real, regMean: real, prefMean: real, regVar: real, prefVar: real)

  /** The `best_*` variables of `main`. */
  datatype Best = Best(speedup: real, prefetchAhead: nat, regMean: real, prefMean: real, regVar: real, prefVar: real)

  /** Their values before the sweep. */
  const NO_BEST: Best := Best(0.0, 0, 0.0, 0.0, 0.0, 0.0)

  /** The `best_*` variables taken all together from the measurement of
      lookahead k. */
  function Record(k: nat, m: Measurement): Best
  {
    Best(m.speedup, k, m.regMean, m.prefMean, m.regVar, m.prefVar)
  }

  /** One step of the sweep: replace the best only on a strictly greater
      speedup. */
  function Consider(best: Best, k: nat, m: Measurement): Best
  {
    if m.speedup > best.speedup then Record(k, m) else best
  }

  /** The best after trying k = 1 .. count, where `ms[k - 1]` is what k
      measured. */
  function SweepFold(ms: seq<Measurement>, count: nat): Best
    requires count <= |ms|
  {
    if count == 0 then NO_BEST else Consider(SweepFold(ms, count - 1), count, ms[count - 1])
  }

  /** The best speedup is the maximum of 0.0 and every speedup measured. It
      is either the initial record (exactly when no speedup exceeds 0.0) or
      the whole record of one lookahead k, reached by no earlier k (so later
      ties never replace it). */
  lemma {:induction false} SweepBest(ms: seq<Measurement>, count: nat)
    requires count <= |ms|
    ensures var b := SweepFold(ms, count);
      b.speedup >= 0.0 &&
      (forall j :: 0 <= j < count ==> ms[j].speedup <= b.speedup) &&
      (b.prefetchAhead == 0 <==> forall j :: 0 <= j < count ==> ms[j].speedup <= 0.0) &&
      (b.prefetchAhead == 0 ==> b == NO_BEST) &&
      (b.prefetchAhead != 0 ==>
        b.prefetchAhead <= count && b == Record(b.prefetchAhead, ms[b.prefetchAhead - 1]) &&
        forall j :: 0 <= j < b.prefetchAhead - 1 ==> ms[j].speedup < b.speedup)
  {
    if count > 0 {
      SweepBest(ms, count - 1);
    }
  }

  /** The update at the end of each sweep iteration. */
  method UpdateBest(best: Best, k: nat, m: Measurement) returns (updated: Best)
    ensures updated == Consider(best, k, m)
  {
    updated := best;
    if m.speedup > best.speedup {
      updated := Best(m.speedup, k, m.regMean, m.prefMean, m.regVar, m.prefVar);
    }
  }

  /** Line 186's "Results match" for lookahead k: the results of
      `regularAccess` and of `prefetchedAccess` as written agree within the
      tolerance. */
  function ResultsMatchAt(matrix: Matrix, p: seq<nat>, k: nat): bool
    requires ValidAccess(matrix, p, NUM_COLS) && 0 < |p| && k <= |p|
  {
    ResultsMatch(RegularResult(matrix, p), PrefetchedResult(matrix, p, k))
  }

  /** The comparison succeeds at least whenever every one of the last k rows
      read squares to 0 (then the two results are equal). */
  lemma ZeroTailMatches(matrix: Matrix, p: seq<nat>, k: nat)
    requires ValidAccess(matrix, p, NUM_COLS) && 0 < |p| && k <= |p|
    requires forall i :: |p| - k <= i < |p| ==> SquareSum(matrix[p[i]], NUM_COLS) == 0.0
    ensures ResultsMatchAt(matrix, p, k)
  {
    PrefetchedMatchesRegularIff(matrix, p, k);
  }

  /** The exact rule of line 186's comparison for lookahead k: the results
      match exactly when the extra `NUM_COLS - PASSES` passes over the last k
      rows move the mean by less than the tolerance. */
  lemma ResultsMatchAtIff(matrix: Matrix, p: seq<nat>, k: nat)
    requires ValidAccess(matrix, p, NUM_COLS) && 0 < |p| && k <= |p|
    ensures ResultsMatchAt(matrix, p, k) <==>
      (NUM_COLS - PASSES) as real * TailSquares(matrix, p, |p| - k, |p|) / NUM_COLS as real / |p| as real < TOLERANCE
  {
    var n := |p| as real;
    var excess := (NUM_COLS - PASSES) as real * TailSquares(matrix, p, |p| - k, |p|) / NUM_COLS as real;
    FoldedExcess(matrix, p, |p| - k, |p|);
    TailSquaresZeroIff(matrix, p, |p| - k, |p|);
    assert excess >= 0.0;
    assert PrefetchedResult(matrix, p, k) - RegularResult(matrix, p) == excess / n;
    assert Abs(RegularResult(matrix, p) - PrefetchedResult(matrix, p, k)) == excess / n;
  }

  /** When every row read has the same squared sum s, the tail squares add up
      to s once per tail position. */
  lemma {:induction false} TailSquaresConstant(matrix: Matrix, p: seq<nat>, split: nat, m: nat, s: real)
    requires ValidAccess(matrix, p, NUM_COLS) && split <= m <= |p|
    requires forall i :: 0 <= i < |p| ==> SquareSum(matrix[p[i]], NUM_COLS) == s
    ensures TailSquares(matrix, p, split, m) == (m - split) as real * s
  {
    if m > split {
      TailSquaresConstant(matrix, p, split, m - 1, s);
    }
  }

  /** Twenty reads of the row `[1.0, 0.0, ..., 0.0]`: the comparison of line
      186 fails for every k the sweep tries, because each tail position adds
      298/300 more than `regularAccess` does. */
  lemma SweepMismatchExample(k: nat)
    requires PREFETCH_AHEAD_START <= k <= PREFETCH_AHEAD_END
    ensures var row := seq(NUM_COLS, j => if j == 0 then 1.0 else 0.0);
      var p := seq(PREFETCH_AHEAD_END, i => 0);
      ValidAccess([row], p, NUM_COLS) && !ResultsMatchAt([row], p, k)
  {
    var row := seq(NUM_COLS, j => if j == 0 then 1.0 else 0.0);
    var p: seq<nat> := seq(PREFETCH_AHEAD_END, i => 0);
    var matrix := [row];
    assert ValidAccess(matrix, p, NUM_COLS);
    SquareSumLeading(row, NUM_COLS);
    TailSquaresConstant(matrix, p, |p| - k, |p|, 1.0);
    FoldedExcess(matrix, p, |p| - k, |p|);
    var excess := Folded(matrix, p, |p| - k, NUM_COLS, |p|) - Folded(matrix, p, |p|, PASSES, |p|);
    assert excess == 298.0 * k as real / 300.0;
    assert PrefetchedResult(matrix, p, k) - RegularResult(matrix, p) == excess / 20.0;
  }

  /** The timed runs for one lookahead k: `NUM_RUNS` times, `regularAccess`
      and then `prefetchedAccess` as written; the results of the last run are
      the ones `main` compares. */
  method RunTests(matrix: Matrix, p: seq<nat>, k: nat) returns (result1: real, result2: real)
    requires ValidAccess(matrix, p, NUM_COLS) && 0 < |p| && k <= |p|
    ensures result1 == RegularResult(matrix, p) && result2 == PrefetchedResult(matrix, p, k)
  {
    result1, result2 := 0.0, 0.0;
    var run := 0;
    while run < NUM_RUNS
      invariant run <= NUM_RUNS
      invariant run > 0 ==> result1 == RegularResult(matrix, p) && result2 == PrefetchedResult(matrix, p, k)
    {
      ghost var rowsRead, hints;
      result1, rowsRead := RegularAccess(matrix, p);
      result2, hints, rowsRead := PrefetchedAccess(matrix, p, k);
      run := run + 1;
    }
  }

  /** `main` after loading: an empty pattern exits with status 1 before the
      sweep. Otherwise k runs from 1 to 20 in ascending order; a pattern
      shorter than 20 rows makes the sweep reach k = n + 1, where the first
      loop reads past the end of the pattern. A longer pattern completes the
      sweep with `best` the fold of `Consider` over all twenty measurements.
      `matches[k - 1]` is the "Results match" line printed for k, which holds
      exactly under the tolerance rule of `ResultsMatchAtIff`, in particular
      when the last k rows square to 0 (`ZeroTailMatches`), and can
      fail for every k (`SweepMismatchExample`). `ms[k - 1]` stands for what
      the timed runs of lookahead k measured. */
  method OptimalMain(matrix: Matrix, p: seq<nat>, ms: seq<Measurement>)
    returns (outcome: Outcome, best: Best, tried: seq<nat>, matches: seq<bool>)
    requires ValidAccess(matrix, p, NUM_COLS)
    requires |ms| == PREFETCH_AHEAD_END
    ensures p == [] ==> outcome == Exit(1) && tried == []
    ensures 0 < |p| < PREFETCH_AHEAD_END ==> outcome == OutOfBounds && |tried| == |p| + 1
    ensures |p| >= PREFETCH_AHEAD_END ==> outcome == Exit(0) && best == SweepFold(ms, PREFETCH_AHEAD_END)
    ensures |p| >= PREFETCH_AHEAD_END ==> |tried| == PREFETCH_AHEAD_END && |matches| == PREFETCH_AHEAD_END
    ensures forall j :: 0 <= j < |tried| ==> tried[j] == PREFETCH_AHEAD_START + j
    ensures |matches| <= |tried| && |matches| <= |p|
    ensures 0 < |p| < PREFETCH_AHEAD_END ==> |matches| == |p|
    ensures forall j :: 0 <= j < |matches| ==> matches[j] == ResultsMatchAt(matrix, p, j + 1)
  {
    best, tried, matches := NO_BEST, [], [];
    if p == [] {
      return Exit(1), best, tried, matches;
    }
    var k := PREFETCH_AHEAD_START;
    while k <= PREFETCH_AHEAD_END
      invariant PREFETCH_AHEAD_START <= k <= PREFETCH_AHEAD_END + 1
      invariant k - 1 <= |p|
      invariant |tried| == k - PREFETCH_AHEAD_START && |matches| == |tried|
      invariant forall j :: 0 <= j < |tried| ==> tried[j] == PREFETCH_AHEAD_START + j
      invariant forall j :: 0 <= j < |matches| ==> matches[j] == ResultsMatchAt(matrix, p, j + 1)
      invariant best == SweepFold(ms, k - 1)
    {
      tried := tried + [k];
      if k > |p| {
        // n - k wrapped around: the first loop reads p[i + k] past the end
        return OutOfBounds, best, tried, matches;
      }
      var result1, result2 := RunTests(matrix, p, k);
      matches := matches + [ResultsMatch(result1, result2)];
      best := UpdateBest(best, k, ms[k - 1]);
      k := k + 1;
    }
    outcome := Exit(0);
  }
}
