/** `ngram_prefetching.cpp`: a trigram model (orders 1 to 3) counted over the
    access pattern, its prediction accuracy on that same pattern, and
    `ngram_prefetch`, which keeps the last two rows read as context and hints
    the row the model predicts after them before reading the current row. */
module NGramPrefetching {
  import opened Common
  import opened Counting
  import opened Reduction
  import opened NGram

  /** The embedding dimension of the loaded matrix. */
  const NUM_COLS: nat := 25

  /** The order of the n-gram model: tables for orders 1, 2 and 3. */
  const NGRAM_ORDER: nat := 3

  /** The context kept by the access loop and the accuracy loop: the last
      `NGRAM_ORDER - 1` rows. */
  const CONTEXT_LENGTH: nat := NGRAM_ORDER - 1

  /** The context after the rows `p[0..len-1]` have been pushed one at a time,
      each push first dropping the oldest row when the context is full: the
      last `min(len, CONTEXT_LENGTH)` rows of `p[..len]`. */
  function Window(p: seq<nat>, len: nat): (w: seq<nat>)
    requires len <= |p|
    ensures |w| <= CONTEXT_LENGTH && |w| <= len
    ensures len >= CONTEXT_LENGTH ==> |w| == CONTEXT_LENGTH
    ensures forall j :: 0 <= j < |w| ==> w[j] == p[len - |w| + j]
  {
    p[(if len >= CONTEXT_LENGTH then len - CONTEXT_LENGTH else 0)..len]
  }

  /** Drop the oldest row when the context already holds two, then append
      `p[len]`: the context of `p[..len]` becomes the context of
      `p[..len+1]`. */
  method PushContext(p: seq<nat>, len: nat, context: seq<nat>) returns (updated: seq<nat>)
    requires len < |p| && context == Window(p, len)
    ensures updated == Window(p, len + 1)
  {
    updated := context;
    if |updated| >= CONTEXT_LENGTH {
      updated := updated[1..];
    }
    updated := updated + [p[len]];
  }

  /** The first m predictions are answers `predictNextWord` may give: the
      j-th is a prediction from the context after `offset + j` rows. The
      access loop predicts at every position (offset 1); the accuracy loop
      only once the context is full (offset `CONTEXT_LENGTH`). */
  ghost predicate PredictionsFrom(models: seq<NGramTable>, p: seq<nat>, offset: nat, predictions: seq<nat>, m: nat)
    requires m <= |predictions| && m + offset <= |p| + 1
  {
    m == 0 ||
    (PredictionsFrom(models, p, offset, predictions, m - 1) &&
     IsPrediction(models, Window(p, m - 1 + offset), predictions[m - 1]))
  }

  /** `PredictionsFrom` read position by position. */
  lemma {:induction false} PredictionsFromAll(models: seq<NGramTable>, p: seq<nat>, offset: nat, predictions: seq<nat>, m: nat)
    requires m <= |predictions| && m + offset <= |p| + 1
    requires PredictionsFrom(models, p, offset, predictions, m)
    ensures forall j :: 0 <= j < m ==> IsPrediction(models, Window(p, j + offset), predictions[j])
  {
    if m > 0 {
      PredictionsFromAll(models, p, offset, predictions, m - 1);
    }
  }

  /** Appending a prediction keeps the earlier ones. */
  lemma {:induction false} PredictionsFromExtend(models: seq<NGramTable>, p: seq<nat>, offset: nat, predictions: seq<nat>, x: nat, m: nat)
    requires m <= |predictions| && m + offset <= |p| + 1
    requires PredictionsFrom(models, p, offset, predictions, m)
    ensures PredictionsFrom(models, p, offset, predictions + [x], m)
  {
    if m > 0 {
      PredictionsFromExtend(models, p, offset, predictions, x, m - 1);
    }
  }

  /** The call `predictNextWord(ngramModels, context)` of either loop, with the
      context full or not: its answer extends the valid predictions by one. */
  method PredictFromContext(models: seq<NGramTable>, p: seq<nat>, offset: nat, context: seq<nat>, ghost predictions: seq<nat>)
    returns (predicted: nat)
    requires WellFormed(models)
    requires |predictions| + offset <= |p| && context == Window(p, |predictions| + offset)
    requires PredictionsFrom(models, p, offset, predictions, |predictions|)
    ensures IsPrediction(models, context, predicted)
    ensures PredictionsFrom(models, p, offset, predictions + [predicted], |predictions| + 1)
  {
    predicted := PredictNextWord(models, context);
    PredictionsFromExtend(models, p, offset, predictions, predicted, |predictions|);
  }

  /** The hint issued for a prediction: the predicted row when it exists in a
      matrix of `rows` rows, and none otherwise. */
  function HintFor(predicted: nat, rows: nat): Option<nat>
  {
    if predicted < rows then Some(predicted) else None
  }

  /** `if (predicted_next < matrix.size()) _mm_prefetch(...)`. */
  method PrefetchIfValid(predicted: nat, rows: nat) returns (hint: Option<nat>)
    ensures hint == HintFor(predicted, rows)
  {
    hint := None;
    if predicted < rows {
      hint := Some(predicted);  // _mm_prefetch of row predicted
    }
  }

  /** The hints issued for a sequence of predictions. */
  ghost function PrefetchHints(predictions: seq<nat>, rows: nat): (hs: seq<Option<nat>>)
    ensures |hs| == |predictions|
  {
    if predictions == [] then []
    else PrefetchHints(predictions[..|predictions| - 1], rows) + [HintFor(predictions[|predictions| - 1], rows)]
  }

  /** The hint rule of `ngram_prefetch`: position i hints a row exactly when
      its prediction names an existing row, and the row it hints is the
      prediction. */
  lemma {:induction false} PrefetchHintRule(predictions: seq<nat>, rows: nat)
    ensures forall i :: 0 <= i < |predictions| ==>
      (PrefetchHints(predictions, rows)[i].Some? <==> predictions[i] < rows)
    ensures forall i :: 0 <= i < |predictions| && PrefetchHints(predictions, rows)[i].Some? ==>
      PrefetchHints(predictions, rows)[i].value == predictions[i]
  {
    if predictions != [] {
      PrefetchHintRule(predictions[..|predictions| - 1], rows);
    }
  }

  /** One more prediction adds its hint at the end. */
  lemma PrefetchHintsAppend(predictions: seq<nat>, x: nat, rows: nat)
    ensures PrefetchHints(predictions + [x], rows) == PrefetchHints(predictions, rows) + [HintFor(x, rows)]
  {
    AppendPrefix(predictions, x);
  }

  /** `regularAccess`: reads the rows `p[0..n-1]` in order and returns the mean
      of their mean squares. Its progress test `i % (n / 10) == 0` divides by
      zero unless the pattern has at least 10 positions. */
  method RegularAccess(matrix: Matrix, p: seq<nat>) returns (result: real, ghost rowsRead: seq<nat>)
    requires ValidAccess(matrix, p, NUM_COLS) && |p| >= 10
    ensures result == MeanSquareResult(matrix, p, NUM_COLS)
    ensures rowsRead == p
  {
    result, rowsRead := 0.0, [];
    var i := 0;
    while i < |p|
      invariant i <= |p|
      invariant result == Accumulated(matrix, p, NUM_COLS, i)
      invariant rowsRead == p[..i]
    {
      if i % (|p| / 10) == 0 {
        // progress line on standard output
      }
      result := AddRowMean(matrix, p, NUM_COLS, i, result);
      rowsRead := rowsRead + [p[i]];
      PrefixStep(p, i);
      i := i + 1;
    }
    assert p[..|p|] == p;
    result := result / |p| as real;
  }

  /** `ngram_prefetch`: the same reads and the same reduction as
      `regularAccess`, so the same result. Before reading row `p[i]` it pushes
      `p[i]` into the context, predicts the next row from the context, and
      hints that row when it exists. `predictions[i]` is the prediction made
      at position i, and `hints[i]` the hint issued there. The token sequence
      is passed along but not used. */
  method NgramPrefetch(matrix: Matrix, p: seq<nat>, models: seq<NGramTable>, tokens: seq<nat>)
    returns (result: real, ghost predictions: seq<nat>, ghost hints: seq<Option<nat>>, ghost rowsRead: seq<nat>)
    requires ValidAccess(matrix, p, NUM_COLS) && |p| >= 10 && WellFormed(models)
    ensures result == MeanSquareResult(matrix, p, NUM_COLS)
    ensures rowsRead == p
    ensures |predictions| == |p|
    ensures forall i :: 0 <= i < |p| ==> IsPrediction(models, Window(p, i + 1), predictions[i])
    ensures hints == PrefetchHints(predictions, |matrix|)
  {
    result, predictions, hints, rowsRead := 0.0, [], [], [];
    var context: seq<nat> := [];
    var i := 0;
    while i < |p|
      invariant i <= |p|
      invariant context == Window(p, i)
      invariant result == Accumulated(matrix, p, NUM_COLS, i)
      invariant rowsRead == p[..i]
      invariant |predictions| == i
      invariant PredictionsFrom(models, p, 1, predictions, i)
      invariant hints == PrefetchHints(predictions, |matrix|)
    {
      if i % (|p| / 10) == 0 {
        // progress line on standard output
      }
      context := PushContext(p, i, context);
      var predictedNext := PredictFromContext(models, p, 1, context, predictions);
      var hint := PrefetchIfValid(predictedNext, |matrix|);
      PrefetchHintsAppend(predictions, predictedNext, |matrix|);
      predictions := predictions + [predictedNext];
      hints := hints + [hint];
      result := AddRowMean(matrix, p, NUM_COLS, i, result);
      rowsRead := rowsRead + [p[i]];
      PrefixStep(p, i);
      i := i + 1;
    }
    assert p[..|p|] == p;
    PredictionsFromAll(models, p, 1, predictions, |p|);
    result := result / |p| as real;
  }

  /** Appending one element and taking the old length back gives the old
      sequence. */
  lemma AppendPrefix(s: seq<nat>, x: nat)
    ensures (s + [x])[..|s|] == s
  {
  }

  /** The number of predictions that name the actual next row: the j-th
      prediction is made from the context `p[j..j+2]` and compared with
      `p[j+2]`. */
  ghost function NGramHits(p: seq<nat>, predictions: seq<nat>): (hits: nat)
    requires predictions == [] || |predictions| + CONTEXT_LENGTH <= |p|
    ensures hits <= |predictions|
  {
    if predictions == [] then 0
    else
      var m := |predictions| - 1;
      NGramHits(p, predictions[..m]) + (if predictions[m] == p[m + CONTEXT_LENGTH] then 1 else 0)
  }

  /** One more prediction counts as a hit exactly when it names the row two
      positions after the start of its context. */
  lemma NGramHitsAppend(p: seq<nat>, predictions: seq<nat>, x: nat)
    requires |predictions| + CONTEXT_LENGTH < |p|
    ensures NGramHits(p, predictions + [x])
         == NGramHits(p, predictions) + (if x == p[|predictions| + CONTEXT_LENGTH] then 1 else 0)
  {
    AppendPrefix(predictions, x);
  }

  /** One scored position of the accuracy loop: predict from the full
      context and compare with the row that actually follows it. */
  method ScoreNext(models: seq<NGramTable>, p: seq<nat>, next: nat, context: seq<nat>, ghost predictions: seq<nat>, correct: nat)
    returns (predicted: nat, ghost extended: seq<nat>, updated: nat)
    requires WellFormed(models)
    requires next == |predictions| + CONTEXT_LENGTH && next < |p| && context == Window(p, next)
    requires PredictionsFrom(models, p, CONTEXT_LENGTH, predictions, |predictions|)
    requires correct == NGramHits(p, predictions)
    ensures IsPrediction(models, Window(p, next), predicted)
    ensures extended == predictions + [predicted]
    ensures PredictionsFrom(models, p, CONTEXT_LENGTH, extended, |extended|)
    ensures updated == correct + (if predicted == p[next] then 1 else 0)
    ensures updated == NGramHits(p, extended)
  {
    predicted := PredictFromContext(models, p, CONTEXT_LENGTH, context, predictions);
    var actual := p[next];
    NGramHitsAppend(p, predictions, predicted);
    extended := predictions + [predicted];
    updated := if predicted == actual then correct + 1 else correct;
  }

  /** The accuracy loop of `main`: for i from 0 to n-2, push `p[i]` into the
      context; once the context holds two rows, predict from it and compare
      with `p[i+1]`. The first prediction is made at i = 1, so a pattern of n
      rows makes n - 2 predictions (none when n < 2). `predictions[j]` is a
      prediction from the context `p[j..j+2]`, which is `Window(p, j + 2)`
      (read position by position through `PredictionsFromAll`). */
  method NGramAccuracy(models: seq<NGramTable>, p: seq<nat>)
    returns (correct: nat, total: nat, ghost predictions: seq<nat>)
    requires WellFormed(models) && |p| > 0
    ensures total == if |p| >= CONTEXT_LENGTH then |p| - CONTEXT_LENGTH else 0
    ensures correct <= total
    ensures |predictions| == total
    ensures PredictionsFrom(models, p, CONTEXT_LENGTH, predictions, total)
    ensures correct == NGramHits(p, predictions)
  {
    correct, total, predictions := 0, 0, [];
    var context: seq<nat> := [];
    var i := 0;
    while i < |p| - 1
      invariant i <= |p| - 1
      invariant context == Window(p, i)
      invariant total == if i >= CONTEXT_LENGTH - 1 then i - (CONTEXT_LENGTH - 1) else 0
      invariant |predictions| == total
      invariant PredictionsFrom(models, p, CONTEXT_LENGTH, predictions, total)
      invariant correct == NGramHits(p, predictions)
    {
      context := PushContext(p, i, context);
      if |context| == CONTEXT_LENGTH {
        var predicted;
        predicted, predictions, correct := ScoreNext(models, p, i + 1, context, predictions, correct);
        total := total + 1;
      }
      i := i + 1;
    }
  }

  /** `main` after loading: an empty pattern exits with status 1. Otherwise
      the three tables are counted from the pattern and the accuracy loop
      runs; then `regularAccess` divides by zero when the pattern has fewer
      than 10 rows. With at least 10 rows both access functions run and their
      results always match. */
  method NGramMain(matrix: Matrix, p: seq<nat>)
    returns (outcome: Outcome, correct: nat, total: nat, resultsMatch: bool)
    requires ValidAccess(matrix, p, NUM_COLS)
    ensures p == [] ==> outcome == Exit(1) && total == 0
    ensures 0 < |p| < 10 ==> outcome == DivisionByZero
    ensures |p| >= 10 ==> outcome == Exit(0) && resultsMatch
    ensures p != [] ==> total == (if |p| >= CONTEXT_LENGTH then |p| - CONTEXT_LENGTH else 0) && correct <= total
  {
    if p == [] {
      return Exit(1), 0, 0, false;
    }
    var tokens := p;
    var models := new NGramTable[NGRAM_ORDER](_ => map[]);
    BuildKGramModels(models, tokens, NGRAM_ORDER);
    BuiltModelsWellFormed(models[..], tokens);
    ghost var predictions;
    correct, total, predictions := NGramAccuracy(models[..], p);
    if |p| < 10 {
      return DivisionByZero, correct, total, false;
    }
    var result1, result2;
    ghost var rowsRead1, rowsRead2, predictions2, hints;
    result1, rowsRead1 := RegularAccess(matrix, p);
    result2, predictions2, hints, rowsRead2 := NgramPrefetch(matrix, p, models[..], tokens);
    resultsMatch := ResultsMatch(result1, result2);
    outcome := Exit(0);
  }
}
