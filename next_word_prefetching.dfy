/** `next_word_prefetching.cpp`: a Markov "most likely next row" table built
    from the consecutive pairs of the access pattern, its prediction accuracy
    on that same pattern, and `learnableAccess`, which hints the predicted
    successor's row before reading the current one. */
module NextWordPrefetching {
  import opened Common
  import opened Counting
  import opened Reduction

  /** The embedding dimension of the loaded matrix. */
  const NUM_COLS: nat := 25

  /** `transition_counts`: current row to the counts of the rows after it. */
  type TransitionCounts = Table<nat>

  /** The number of consecutive pairs, i.e. of i with `i + 1 < |p|`. */
  function NumPairs(p: seq<nat>): (m: nat)
    ensures m + 1 <= |p| || (m == 0 && p == [])
    ensures |p| > 0 ==> m == |p| - 1
  {
    if p == [] then 0 else |p| - 1
  }

  /** The counts after the pairs at positions 0 .. m-1 have been counted. */
  function Transitions(p: seq<nat>, m: nat): TransitionCounts
    requires m <= NumPairs(p)
  {
    if m == 0 then map[] else Bump(Transitions(p, m - 1), p[m - 1], p[m])
  }

  /** The number of i < m with `p[i] == a` and `p[i+1] == b`. */
  function PairCount(p: seq<nat>, a: nat, b: nat, m: nat): nat
    requires m <= NumPairs(p)
  {
    if m == 0 then 0
    else PairCount(p, a, b, m - 1) + (if p[m - 1] == a && p[m] == b then 1 else 0)
  }

  /** The rows that have a successor: `p[i]` for `i < |p| - 1`. */
  function Currents(p: seq<nat>): set<nat>
  {
    set i | 0 <= i < NumPairs(p) :: p[i]
  }

  lemma {:induction false} TransitionsCount(p: seq<nat>, m: nat, a: nat, b: nat)
    requires m <= NumPairs(p)
    ensures Count(Transitions(p, m), a, b) == PairCount(p, a, b, m)
  {
    if m > 0 {
      TransitionsCount(p, m - 1, a, b);
      CountBump(Transitions(p, m - 1), p[m - 1], p[m], a, b);
    }
  }

  lemma {:induction false} TransitionsKeys(p: seq<nat>, m: nat, a: nat)
    requires m <= NumPairs(p)
    ensures a in Transitions(p, m) <==> exists i :: 0 <= i < m && p[i] == a
  {
    if m > 0 {
      TransitionsKeys(p, m - 1, a);
      if a in Transitions(p, m) && a !in Transitions(p, m - 1) {
        assert p[m - 1] == a;
      }
    }
  }

  lemma {:induction false} TransitionsPositive(p: seq<nat>, m: nat)
    requires m <= NumPairs(p)
    ensures Positive(Transitions(p, m))
  {
    if m > 0 {
      TransitionsPositive(p, m - 1);
      BumpPositive(Transitions(p, m - 1), p[m - 1], p[m]);
    }
  }

  /** `transition_counts[a][b]` is the number of positions i with `i + 1 < n`,
      `p[i] == a` and `p[i+1] == b`; its keys are exactly the rows that have a
      successor, and every stored count is positive. */
  lemma TransitionCountsExact(p: seq<nat>)
    ensures forall a, b :: Count(Transitions(p, NumPairs(p)), a, b) == PairCount(p, a, b, NumPairs(p))
    ensures Transitions(p, NumPairs(p)).Keys == Currents(p)
    ensures Positive(Transitions(p, NumPairs(p)))
  {
    var m := NumPairs(p);
    forall a, b ensures Count(Transitions(p, m), a, b) == PairCount(p, a, b, m) {
      TransitionsCount(p, m, a, b);
    }
    forall a ensures a in Transitions(p, m) <==> a in Currents(p) {
      TransitionsKeys(p, m, a);
    }
    TransitionsPositive(p, m);
  }

  /** The first loop of `main`: `transition_counts[p[i]][p[i+1]]++` for every
      consecutive pair, starting from an empty table. */
  method BuildTransitionCounts(p: seq<nat>) returns (counts: TransitionCounts)
    ensures counts == Transitions(p, NumPairs(p))
  {
    counts := map[];
    var i := 0;
    while i + 1 < |p|
      invariant i <= NumPairs(p)
      invariant counts == Transitions(p, i)
    {
      var current := p[i];
      var next := p[i + 1];
      counts := Bump(counts, current, next);  // transition_counts[current][next]++
      i := i + 1;
    }
  }

  /** The inner loop of the second loop of `main`: starting from
      `max_count = 0` and `likely_next = 0`, keep the successor whose count is
      strictly greater than the best so far. The successor table is visited in
      its (unspecified) iteration order, returned as `order`. */
  method MostLikelySuccessor(successors: map<nat, nat>) returns (likelyNext: nat, ghost order: seq<nat>, ghost pos: nat)
    ensures Enumerates(order, successors.Keys)
    ensures HasPositive(successors) ==>
      IsArgmax(successors, likelyNext) && FirstMaximumAt(successors, order, pos, likelyNext)
    ensures !HasPositive(successors) ==> likelyNext == 0
  {
    var maxCount: nat := 0;
    likelyNext := 0;
    var remaining := successors.Keys;
    order, pos := [], 0;
    while remaining != {}
      invariant remaining <= successors.Keys
      invariant forall x :: x in order <==> x in successors.Keys && x !in remaining
      invariant forall i, j :: 0 <= i < j < |order| ==> order[i] != order[j]
      invariant forall x :: x in order ==> successors[x] <= maxCount
      invariant maxCount == 0 ==> likelyNext == 0
      invariant maxCount > 0 ==>
        FirstMaximumAt(successors, order, pos, likelyNext) && successors[likelyNext] == maxCount
      decreases remaining
    {
      var x :| x in remaining;
      if successors[x] > maxCount {
        maxCount := successors[x];
        likelyNext, pos := x, |order|;
      }
      order := order + [x];
      remaining := remaining - {x};
    }
  }

  /** `mostLikelyNext` holds one entry per key of `counts`: a successor of
      maximal count when some count is positive, else the placeholder 0. */
  ghost predicate IsMostLikelyTable(counts: TransitionCounts, mostLikelyNext: map<nat, nat>)
  {
    mostLikelyNext.Keys == counts.Keys &&
    forall a :: a in counts ==>
      if HasPositive(counts[a]) then IsArgmax(counts[a], mostLikelyNext[a]) else mostLikelyNext[a] == 0
  }

  /** The second loop of `main`: `mostLikelyNext[current] = likely_next` for
      every row of `transition_counts`, in the table's iteration order. For
      every row, `orders` gives the iteration order of its successors, and the
      chosen successor is the first maximum in that order. */
  method SelectMostLikely(counts: TransitionCounts) returns (mostLikelyNext: map<nat, nat>, ghost orders: map<nat, seq<nat>>)
    ensures IsMostLikelyTable(counts, mostLikelyNext)
    ensures orders.Keys == counts.Keys
    ensures forall a :: a in counts ==> Enumerates(orders[a], counts[a].Keys)
    ensures forall a :: a in counts && HasPositive(counts[a]) ==>
      exists pos :: FirstMaximumAt(counts[a], orders[a], pos, mostLikelyNext[a])
  {
    mostLikelyNext, orders := map[], map[];
    var remaining := counts.Keys;
    while remaining != {}
      invariant remaining <= counts.Keys
      invariant mostLikelyNext.Keys == counts.Keys - remaining
      invariant orders.Keys == counts.Keys - remaining
      invariant forall a :: a in mostLikelyNext ==>
        if HasPositive(counts[a]) then IsArgmax(counts[a], mostLikelyNext[a]) else mostLikelyNext[a] == 0
      invariant forall a :: a in orders ==> Enumerates(orders[a], counts[a].Keys)
      invariant forall a :: a in orders && HasPositive(counts[a]) ==>
        exists pos :: FirstMaximumAt(counts[a], orders[a], pos, mostLikelyNext[a])
      decreases remaining
    {
      var current :| current in remaining;
      var likelyNext, order, pos := MostLikelySuccessor(counts[current]);
      mostLikelyNext := mostLikelyNext[current := likelyNext];
      orders := orders[current := order];
      remaining := remaining - {current};
    }
  }

  /** No row follows `a` in the pattern more often than `w` does. */
  ghost predicate MostFrequentSuccessor(p: seq<nat>, a: nat, w: nat)
  {
    forall b :: PairCount(p, a, b, NumPairs(p)) <= PairCount(p, a, w, NumPairs(p))
  }

  /** On the training pattern, `mostLikelyNext` has an entry exactly for the
      rows that have a successor (`p[i]` with `i < n-1`), and each entry is an
      observed successor (so the placeholder 0 only when 0 really follows)
      whose pair count no other successor exceeds. */
  lemma MostLikelyFromPattern(p: seq<nat>, mostLikelyNext: map<nat, nat>)
    requires IsMostLikelyTable(Transitions(p, NumPairs(p)), mostLikelyNext)
    ensures mostLikelyNext.Keys == Currents(p)
    ensures forall a :: a in mostLikelyNext ==> PairCount(p, a, mostLikelyNext[a], NumPairs(p)) >= 1
    ensures forall a :: a in mostLikelyNext ==> MostFrequentSuccessor(p, a, mostLikelyNext[a])
  {
    var m := NumPairs(p);
    var counts := Transitions(p, m);
    TransitionCountsExact(p);
    forall a | a in mostLikelyNext
      ensures PairCount(p, a, mostLikelyNext[a], m) >= 1
      ensures MostFrequentSuccessor(p, a, mostLikelyNext[a])
    {
      var w :| w in counts[a];
      assert counts[a][w] > 0;
      assert HasPositive(counts[a]);
      var best := mostLikelyNext[a];
      assert Count(counts, a, best) == counts[a][best];
      forall b ensures PairCount(p, a, b, m) <= PairCount(p, a, best, m) {
        if b in counts[a] {
          assert Count(counts, a, b) == counts[a][b];
        }
      }
    }
  }

  /** The number of positions i < m whose row has an entry in the table. */
  function Predicted(p: seq<nat>, mostLikelyNext: map<nat, nat>, m: nat): nat
    requires m <= NumPairs(p)
  {
    if m == 0 then 0
    else Predicted(p, mostLikelyNext, m - 1) + (if p[m - 1] in mostLikelyNext then 1 else 0)
  }

  /** The number of positions i < m whose entry names the row at i + 1. */
  function Hits(p: seq<nat>, mostLikelyNext: map<nat, nat>, m: nat): nat
    requires m <= NumPairs(p)
  {
    if m == 0 then 0
    else
      var hit := if p[m - 1] in mostLikelyNext && mostLikelyNext[p[m - 1]] == p[m] then 1 else 0;
      Hits(p, mostLikelyNext, m - 1) + hit
  }

  /** When every row before position m has an entry, every one of those
      positions counts as a prediction. */
  lemma {:induction false} AllPredicted(p: seq<nat>, mostLikelyNext: map<nat, nat>, m: nat)
    requires m <= NumPairs(p)
    requires forall i :: 0 <= i < m ==> p[i] in mostLikelyNext
    ensures Predicted(p, mostLikelyNext, m) == m
  {
    if m > 0 {
      AllPredicted(p, mostLikelyNext, m - 1);
    }
  }

  /** The accuracy loop of `main`: over `i < n - 1`, count the positions whose
      row has an entry, and among them those whose entry is the actual next
      row. The loop bound `size() - 1` needs a non-empty pattern. */
  method MarkovAccuracy(p: seq<nat>, mostLikelyNext: map<nat, nat>) returns (correct: nat, total: nat)
    requires |p| > 0
    ensures total == Predicted(p, mostLikelyNext, |p| - 1)
    ensures correct == Hits(p, mostLikelyNext, |p| - 1)
    ensures correct <= total
  {
    correct, total := 0, 0;
    var i := 0;
    while i < |p| - 1
      invariant i <= |p| - 1
      invariant total == Predicted(p, mostLikelyNext, i)
      invariant correct == Hits(p, mostLikelyNext, i)
      invariant correct <= total
    {
      var current := p[i];
      var actualNext := p[i + 1];
      if current in mostLikelyNext {
        total := total + 1;
        if mostLikelyNext[current] == actualNext {
          correct := correct + 1;
        }
      }
      i := i + 1;
    }
  }

  /** `regularAccess`: reads the rows `p[0..n-1]` in order and returns the mean
      of their mean squares. */
  method RegularAccess(matrix: Matrix, p: seq<nat>) returns (result: real, ghost rowsRead: seq<nat>)
    requires ValidAccess(matrix, p, NUM_COLS) && |p| > 0
    ensures result == MeanSquareResult(matrix, p, NUM_COLS)
    ensures rowsRead == p
  {
    result, rowsRead := 0.0, [];
    var i := 0;
    while i < |p|
      invariant i <= |p|
      invariant result == Accumulated(matrix, p, NUM_COLS, i)
      invariant rowsRead == p[..i]
    {
      result := AddRowMean(matrix, p, NUM_COLS, i, result);
      rowsRead := rowsRead + [p[i]];
      PrefixStep(p, i);
      i := i + 1;
    }
    assert p[..|p|] == p;
    result := result / |p| as real;
  }

  /** The hint `learnableAccess` issues at position i of a pattern, for a
      matrix of `rows` rows. */
  ghost function MarkovHint(p: seq<nat>, mostLikelyNext: map<nat, nat>, rows: nat, i: nat): Option<nat>
    requires i < |p|
  {
    if i < |p| - 1 && p[i] in mostLikelyNext && mostLikelyNext[p[i]] < rows
    then Some(mostLikelyNext[p[i]]) else None
  }

  /** The prefetch decision of `learnableAccess` at position i: hint the
      entry of `p[i]` when there is a next position, the table has an entry for
      `p[i]`, and the row it names exists. */
  method PrefetchTarget(p: seq<nat>, mostLikelyNext: map<nat, nat>, rows: nat, i: nat) returns (hint: Option<nat>)
    requires i < |p|
    ensures hint == MarkovHint(p, mostLikelyNext, rows, i)
  {
    hint := None;
    if i < |p| - 1 {
      var currentWord := p[i];
      if currentWord in mostLikelyNext {
        var nextWord := mostLikelyNext[currentWord];
        if nextWord < rows {
          hint := Some(nextWord);  // _mm_prefetch of row nextWord
        }
      }
    }
  }

  /** The hints issued at positions 0 .. m-1. */
  ghost function MarkovHints(p: seq<nat>, mostLikelyNext: map<nat, nat>, rows: nat, m: nat): (hs: seq<Option<nat>>)
    requires m <= |p|
    ensures |hs| == m
  {
    if m == 0 then [] else MarkovHints(p, mostLikelyNext, rows, m - 1) + [MarkovHint(p, mostLikelyNext, rows, m - 1)]
  }

  lemma {:induction false} MarkovHintsAt(p: seq<nat>, mostLikelyNext: map<nat, nat>, rows: nat, m: nat)
    requires m <= |p|
    ensures forall j :: 0 <= j < m ==> MarkovHints(p, mostLikelyNext, rows, m)[j] == MarkovHint(p, mostLikelyNext, rows, j)
  {
    if m > 0 {
      MarkovHintsAt(p, mostLikelyNext, rows, m - 1);
    }
  }

  /** The hint rule of `learnableAccess`: one hint slot per position; position
      i hints a row exactly when it is not the last position, the table has
      an entry for `p[i]` and that entry names an existing row, and the row it
      hints is that entry. */
  lemma HintRule(p: seq<nat>, mostLikelyNext: map<nat, nat>, rows: nat)
    ensures |MarkovHints(p, mostLikelyNext, rows, |p|)| == |p|
    ensures forall i :: 0 <= i < |p| ==>
      (MarkovHints(p, mostLikelyNext, rows, |p|)[i].Some? <==>
        i < |p| - 1 && p[i] in mostLikelyNext && mostLikelyNext[p[i]] < rows)
    ensures forall i :: 0 <= i < |p| && MarkovHints(p, mostLikelyNext, rows, |p|)[i].Some? ==>
      MarkovHints(p, mostLikelyNext, rows, |p|)[i].value == mostLikelyNext[p[i]]
  {
    MarkovHintsAt(p, mostLikelyNext, rows, |p|);
  }

  /** `learnableAccess`: the same reads and the same reduction as
      `regularAccess`, so the same result; in addition, at every position but
      the last, it hints the row `mostLikelyNext[p[i]]` when the table has an
      entry for `p[i]` and that row exists. `hints[i]` is the hint issued at
      position i (see `HintRule`). */
  method LearnableAccess(matrix: Matrix, p: seq<nat>, mostLikelyNext: map<nat, nat>)
    returns (result: real, ghost hints: seq<Option<nat>>, ghost rowsRead: seq<nat>)
    requires ValidAccess(matrix, p, NUM_COLS) && |p| > 0
    ensures result == MeanSquareResult(matrix, p, NUM_COLS)
    ensures rowsRead == p
    ensures hints == MarkovHints(p, mostLikelyNext, |matrix|, |p|)
  {
    result, hints, rowsRead := 0.0, [], [];
    var i := 0;
    while i < |p|
      invariant i <= |p|
      invariant result == Accumulated(matrix, p, NUM_COLS, i)
      invariant rowsRead == p[..i]
      invariant hints == MarkovHints(p, mostLikelyNext, |matrix|, i)
    {
      var hint := PrefetchTarget(p, mostLikelyNext, |matrix|, i);
      hints := hints + [hint];
      result := AddRowMean(matrix, p, NUM_COLS, i, result);
      rowsRead := rowsRead + [p[i]];
      PrefixStep(p, i);
      i := i + 1;
    }
    assert p[..|p|] == p;
    result := result / |p| as real;
  }

  /** `main` after loading: an empty pattern exits with status 1 before any
      table is built or row read. Otherwise the table is trained on the
      pattern, evaluated on that same pattern (every one of its n-1 positions
      makes a prediction), and both access functions run; their results
      always match. */
  method NextWordMain(matrix: Matrix, p: seq<nat>)
    returns (outcome: Outcome, correct: nat, total: nat, resultsMatch: bool)
    requires ValidAccess(matrix, p, NUM_COLS)
    ensures outcome == if p == [] then Exit(1) else Exit(0)
    ensures p == [] ==> correct == 0 && total == 0 && !resultsMatch
    ensures p != [] ==> total == |p| - 1 && correct <= total && resultsMatch
  {
    if p == [] {
      return Exit(1), 0, 0, false;
    }
    var counts := BuildTransitionCounts(p);
    var mostLikelyNext;
    ghost var orders;
    mostLikelyNext, orders := SelectMostLikely(counts);
    MostLikelyFromPattern(p, mostLikelyNext);
    correct, total := MarkovAccuracy(p, mostLikelyNext);
    AllPredicted(p, mostLikelyNext, |p| - 1);

    var result1, result2;
    ghost var rowsRead1, rowsRead2, hints;
    result1, rowsRead1 := RegularAccess(matrix, p);
    result2, hints, rowsRead2 := LearnableAccess(matrix, p, mostLikelyNext);
    resultsMatch := ResultsMatch(result1, result2);
    outcome := Exit(0);
  }

  /** The pair counts of the pattern [0, 1, 0, 1, 0, 2], one prefix at a time. */
  lemma TrainingPairCounts(b: nat)
    ensures PairCount([0, 1, 0, 1, 0, 2], 0, b, 5) == (if b == 1 then 2 else if b == 2 then 1 else 0)
    ensures PairCount([0, 1, 0, 1, 0, 2], 1, b, 5) == (if b == 0 then 2 else 0)
  {
    var p := [0, 1, 0, 1, 0, 2];
    assert PairCount(p, 0, b, 1) == (if b == 1 then 1 else 0);
    assert PairCount(p, 0, b, 3) == (if b == 1 then 2 else 0);
    assert PairCount(p, 1, b, 1) == 0;
    assert PairCount(p, 1, b, 2) == (if b == 0 then 1 else 0);
    assert PairCount(p, 1, b, 4) == (if b == 0 then 2 else 0);
  }

  lemma TrainingCurrents()
    ensures Currents([0, 1, 0, 1, 0, 2]) == {0, 1}
  {
    var p := [0, 1, 0, 1, 0, 2];
    assert p[0] == 0 && p[1] == 1;
  }

  /** After 0 the pattern has 0 -> 1 twice and 0 -> 2 once. */
  lemma TrainingAfterZero(w: nat)
    requires PairCount([0, 1, 0, 1, 0, 2], 0, w, 5) >= 1
    requires MostFrequentSuccessor([0, 1, 0, 1, 0, 2], 0, w)
    ensures w == 1
  {
    TrainingPairCounts(w);
    TrainingPairCounts(1);
    assert PairCount([0, 1, 0, 1, 0, 2], 0, 1, 5) <= PairCount([0, 1, 0, 1, 0, 2], 0, w, 5);
  }

  /** After 1 the pattern only ever has 0. */
  lemma TrainingAfterOne(w: nat)
    requires PairCount([0, 1, 0, 1, 0, 2], 1, w, 5) >= 1
    ensures w == 0
  {
    TrainingPairCounts(w);
  }

  /** Trained on the pattern [0, 1, 0, 1, 0, 2], the table predicts 1 after 0
      (0 -> 1 twice against 0 -> 2 once) and 0 after 1 (1 -> 0 twice). */
  lemma TrainingExample(mostLikelyNext: map<nat, nat>)
    requires IsMostLikelyTable(Transitions([0, 1, 0, 1, 0, 2], 5), mostLikelyNext)
    ensures mostLikelyNext.Keys == {0, 1}
    ensures mostLikelyNext[0] == 1 && mostLikelyNext[1] == 0
  {
    MostLikelyFromPattern([0, 1, 0, 1, 0, 2], mostLikelyNext);
    TrainingCurrents();
    TrainingAfterZero(mostLikelyNext[0]);
    TrainingAfterOne(mostLikelyNext[1]);
  }
}
