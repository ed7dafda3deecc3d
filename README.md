# Embedding-row prefetching: a Dafny model

The `embedding_layers` programs read rows of an embedding matrix in the
order given by an access pattern. The pattern is a sequence of row indices
taken from the words of an input text. At each position a program squares
and sums the row and adds that into a running result. While doing so it
issues `_mm_prefetch` hints for rows it expects to need soon. Three
strategies decide those hints:

- **Markov next-row table** (`next_word_prefetching.cpp`). Transition
  counts over the consecutive pairs of the pattern give a table from a row
  to its most frequent successor. `learnableAccess` hints that successor
  before reading the current row. `main` also scores the table's
  prediction accuracy on the same pattern.
- **n-gram backoff** (`ngram.hpp`, `ngram_prefetching.cpp`).
  `buildKGramModels` counts, for every order k = 1..3, which row follows
  each context of k-1 rows. `predictNextWord` tries the longest order whose
  table knows the current context and returns that context's most frequent
  successor, or 0 when no order matches. `ngram_prefetch` keeps a sliding
  context of the last two rows and hints the predicted row. `main` scores
  the predictions.
- **Fixed lookahead** (`optimal_prefetching.cpp`). `prefetchedAccess` hints
  row `p[i + k]` at position i while such a position exists, then finishes
  the last k positions in a tail loop. `main` sweeps k = 1..20 and keeps the
  configuration with the best speedup.

The model is split into these modules:

- `Common`: the outcome of a `main`, and the 1e-10 tolerance of "Results
  match".
- `Counting`: nested count tables filled by `table[key][next]++`, their
  arg-max, and their totals.
- `Reduction`: the per-row squared sum and the running result of the
  25-column programs.
- `NGram`, `NextWordPrefetching`, `NGramPrefetching` and
  `OptimalPrefetching`: one per source file.

Each loop of the source becomes a Dafny `method` with a `while` loop. Each
method is proved against a specification function. `buildKGramModels`
updates the vector of tables in place, so it works on an `array`.

Two choices in the model:

- **Iteration order.** The order of an `unordered_map` is unspecified. The
  model takes it as a choice made by the loop and records it in a ghost
  `order`. The contracts then say "a successor of maximal count, and the
  first maximum in that iteration order".
- **Hints.** A `_mm_prefetch` hint changes no value, so hints are recorded
  in a ghost trace with one `Option` per position. The rows read are
  recorded as a ghost `rowsRead`.

Three behaviours of the code that the contracts state as they are:

- **Ties between successors.** The arg-max runs over an `unordered_map`,
  whose iteration order is unspecified. The model therefore leaves the
  choice open among the maximal successors.
- **No matching order.** `predictNextWord` returns row 0 when no order
  matches. That 0 is then compared and prefetched like any other row.
- **The sweep starts from 0.0.** `best_speedup` starts at 0.0 and is
  replaced only by a strictly greater speedup. If no speedup exceeds 0.0,
  `best_prefetch_ahead` stays 0 and no measurement is recorded.

Other behaviours of the code that the model keeps:

- **The tail of `prefetchedAccess`** repeats the dot product `NUM_COLS`
  times (see Findings). `OptimalMain` runs it as written. Its "Results match"
  flag for k is false exactly when the extra `NUM_COLS - 2` passes over the
  last k rows move the mean by at least the 1e-10 tolerance
  (`ResultsMatchAtIff`). A non-zero tail row that is small enough still
  passes.

- **Short patterns in `ngram_prefetching.cpp`.** For a pattern of 1 to 9
  rows, `i % (accessPattern.size() / 10)` divides by zero. `NGramMain`
  returns `DivisionByZero` in that case.
- **Short patterns in `optimal_prefetching.cpp`.** For a pattern shorter
  than 20 rows, the sweep reaches k = n + 1. There the unsigned
  `n - k` wraps around and `prefetchedAccess` reads past the end of the
  pattern. `OptimalMain` returns `OutOfBounds` in that case.

## Model

| member | source | states |
|---|---|---|
| Counting.Bump | embedding_layers/ngram.hpp:39 | `t[key][next]++` inserts a missing key or successor, leaves every other key's successors alone, and makes `next` a successor of `key` |
| Counting.CountBump | embedding_layers/ngram.hpp:39 | the increment adds exactly one to the count of (key, next) and changes no other count |
| Counting.BumpPositive | embedding_layers/next_word_prefetching.cpp:120 | a table filled only by increments has a non-empty successor map for every key and every stored count is at least 1 |
| Counting.BumpTotal | embedding_layers/ngram.hpp:39 | each increment adds exactly one to the sum of all counts of a table |
| Reduction.RowSquareSum | embedding_layers/next_word_prefetching.cpp:28-31 | the inner loop returns the sum of the squares of the first `cols` entries of the row |
| Reduction.RepeatedRowSquareSum | embedding_layers/optimal_prefetching.cpp:33-40 | the repeated dot-product loop returns `reps` passes of that sum |
| Reduction.RepeatedSquareSumScales | embedding_layers/optimal_prefetching.cpp:34-40 | `reps` passes add up to `reps` times one pass |
| Reduction.SquareSumNonNegative | embedding_layers/optimal_prefetching.cpp:66-68 | a squared sum is never negative |
| Reduction.AddRowMean | embedding_layers/next_word_prefetching.cpp:26-32 | one position adds its row's squared sum divided by the column count to the running result |
| NGram.Positions | embedding_layers/ngram.hpp:35 | the loop `i + k <= n` visits n - k + 1 positions when k tokens fit, and none otherwise |
| NGram.Context | embedding_layers/ngram.hpp:37 | every prefix counted for order k has exactly k - 1 tokens |
| NGram.FillCounts | embedding_layers/ngram.hpp:35-40 | after counting m positions, the count of (context, successor) is the old count plus the number of those positions where that context is followed by that successor |
| NGram.FillKeys | embedding_layers/ngram.hpp:35-40 | a context is in the table after counting exactly when it was already there or occurs at one of the counted positions |
| NGram.FillTotal | embedding_layers/ngram.hpp:35-40 | counting m positions adds exactly m to the table's total |
| NGram.OccurrenceWitness | embedding_layers/ngram.hpp:37-39 | a positive occurrence count names a position where the context is followed by that successor |
| NGram.KGramCounts | embedding_layers/ngram.hpp:32-41 | a table counted from an empty one holds, for every context and successor, exactly its number of occurrences in the tokens; its keys are exactly the contexts that occur; every key has k - 1 tokens; every stored count is positive |
| NGram.KGramTotal | embedding_layers/ngram.hpp:34-40 | the counts of order k sum to n - k + 1 when k tokens fit; when they do not, the table is left unchanged |
| NGram.CountPosition | embedding_layers/ngram.hpp:37-39 | one position increments the order-k table at its prefix and next token and changes no other table |
| NGram.CountOrder | embedding_layers/ngram.hpp:35-40 | the inner loop counts every position of order k into `models[k-1]` and leaves the other tables alone |
| NGram.BuildKGramModels | embedding_layers/ngram.hpp:30-42 | every order 1..n is counted into `models[k-1]` on top of its old contents; entries from n on are unchanged |
| NGram.MatchedOrder | embedding_layers/ngram.hpp:47-55 | the order backoff stops at, if any, is one whose table holds the last k - 1 query tokens and whose context fits in the query |
| NGram.MatchedOrderIsHighest | embedding_layers/ngram.hpp:47-54 | every higher order was skipped, either because the query was too short or because its table lacks that suffix; when no order matches, every order was skipped |
| NGram.MaxElement | embedding_layers/ngram.hpp:57-62 | `max_element` with `a.second < b.second` returns a successor of maximal count, namely the first maximum in the map's iteration order |
| NGram.PredictNextWord | embedding_layers/ngram.hpp:45-66 | the prediction is a maximal-count successor of the highest matching order's context, and 0 when no order matches |
| NGram.EmptyContextCounted | embedding_layers/ngram.hpp:35-39 | counting order 1 over non-empty tokens stores the empty context |
| NGram.CountedSuccessorOccurs | embedding_layers/ngram.hpp:37-39 | every successor stored in a counted table is one of the tokens |
| NGram.PredictionFromBuiltModels | embedding_layers/ngram.hpp:45-66 | with tables built from non-empty tokens, some order always matches (backoff never falls through to the default 0), and the prediction is always one of the tokens |
| NGram.BuiltModelsWellFormed | embedding_layers/ngram.hpp:30-42 | built tables never hold a context with an empty successor map, so `max_element` always has an element |
| NextWordPrefetching.NumPairs | embedding_layers/next_word_prefetching.cpp:117 | the pair loop `i + 1 < n` visits n - 1 positions, and none for an empty pattern |
| NextWordPrefetching.TransitionsCount | embedding_layers/next_word_prefetching.cpp:117-121 | the count of (a, b) is the number of positions where a is followed by b |
| NextWordPrefetching.TransitionsKeys | embedding_layers/next_word_prefetching.cpp:117-121 | a row is a key exactly when it occurs at a position with a successor |
| NextWordPrefetching.TransitionCountsExact | embedding_layers/next_word_prefetching.cpp:116-121 | the built table's counts are the pair occurrences, its keys are the rows that have a successor, and all counts are positive |
| NextWordPrefetching.BuildTransitionCounts | embedding_layers/next_word_prefetching.cpp:116-121 | the loop builds the transition table of every consecutive pair |
| NextWordPrefetching.MostLikelySuccessor | embedding_layers/next_word_prefetching.cpp:125-133 | the strict `>` scan returns a maximal-count successor, the first maximum in iteration order, and 0 when no count is positive |
| NextWordPrefetching.SelectMostLikely | embedding_layers/next_word_prefetching.cpp:123-135 | `mostLikelyNext` has exactly the keys of the counts, and each entry is a first maximal successor of its key |
| NextWordPrefetching.MostLikelyFromPattern | embedding_layers/next_word_prefetching.cpp:116-135 | for every row with a successor in the pattern, the table names a successor that follows it at least once and at least as often as any other row |
| NextWordPrefetching.TrainingExample | embedding_layers/next_word_prefetching.cpp:116-135 | trained on `[0, 1, 0, 1, 0, 2]`, the table is exactly {0: 1, 1: 0} |
| NextWordPrefetching.AllPredicted | embedding_layers/next_word_prefetching.cpp:140-145 | for any table that has an entry for the row at every position before m, each of those positions counts as predicted; `NextWordMain` meets this with the table trained on the same pattern (`MostLikelyFromPattern`) |
| NextWordPrefetching.MarkovAccuracy | embedding_layers/next_word_prefetching.cpp:138-150 | `total` counts the positions with a table entry, `correct` those whose entry is the actual next row, and correct <= total |
| NextWordPrefetching.RegularAccess | embedding_layers/next_word_prefetching.cpp:17-35 | reads every row of the pattern once in order and returns the mean of the rows' mean squares |
| NextWordPrefetching.HintRule | embedding_layers/next_word_prefetching.cpp:43-59 | one hint slot per position; a hint is issued exactly when the position is not the last, the table has an entry for `p[i]` and that row exists, and it names `mostLikelyNext[p[i]]` (each slot is computed by `PrefetchTarget`) |
| NextWordPrefetching.LearnableAccess | embedding_layers/next_word_prefetching.cpp:38-70 | returns the same value as `regularAccess`, reads the same rows in the same order, and issues the hint trace above |
| NextWordPrefetching.NextWordMain | embedding_layers/next_word_prefetching.cpp:109-180 | an empty pattern exits with status 1; otherwise total = n - 1, correct <= total, the program exits with status 0 and the results match |
| NGramPrefetching.Window | embedding_layers/ngram_prefetching.cpp:57-60 | the context holds the last min(len, 2) rows of the pattern, in order |
| NGramPrefetching.PushContext | embedding_layers/ngram_prefetching.cpp:57-60 | erase-front-when-full and `push_back` turn the window before position i into the window through position i |
| NGramPrefetching.PredictionsFromAll | embedding_layers/ngram_prefetching.cpp:137-150 | each recorded prediction is a `predictNextWord` answer for the context window of its position |
| NGramPrefetching.PredictFromContext | embedding_layers/ngram_prefetching.cpp:63 | the prediction made from the current window extends the recorded predictions by one valid answer |
| NGramPrefetching.PrefetchHintRule | embedding_layers/ngram_prefetching.cpp:62-69 | one hint slot per position; a hint is issued exactly when the predicted row is below the row count, and it names that row (each slot is computed by `PrefetchIfValid`) |
| NGramPrefetching.RegularAccess | embedding_layers/ngram_prefetching.cpp:20-38 | with at least 10 rows (so the progress modulus is non-zero), reads every row once in order and returns the mean of mean squares |
| NGramPrefetching.NgramPrefetch | embedding_layers/ngram_prefetching.cpp:41-80 | returns the same value as `regularAccess` and reads the same rows; makes one prediction per position, from the window of the last two rows through that position, and hints each valid prediction |
| NGramPrefetching.NGramHits | embedding_layers/ngram_prefetching.cpp:143-149 | the number of correct predictions never exceeds the number made |
| NGramPrefetching.ScoreNext | embedding_layers/ngram_prefetching.cpp:143-150 | one scored position predicts from the full context, keeps every earlier prediction and appends this one, and adds one to `correct` exactly when the prediction names the next row |
| NGramPrefetching.NGramAccuracy | embedding_layers/ngram_prefetching.cpp:133-151 | predictions are made only from full two-row contexts, so total = n - 2 (0 for n < 2); correct counts the predictions equal to the following row, and correct <= total |
| NGramPrefetching.NGramMain | embedding_layers/ngram_prefetching.cpp:122-181 | an empty pattern exits with status 1; 1 to 9 rows divide by zero; otherwise the program exits with status 0, the results match, and total = n - 2 with correct <= total |
| OptimalPrefetching.AddRow | embedding_layers/optimal_prefetching.cpp:62-71 | one position adds `reps` passes of its row's squared sum, divided by `NUM_COLS`, with `reps` being the loop's repetition count |
| OptimalPrefetching.LookaheadRule | embedding_layers/optimal_prefetching.cpp:53-56 | for k <= n, position i hints exactly when i < n - k, and the hint is `p[i + k]`, a valid pattern index |
| OptimalPrefetching.RegularAccess | embedding_layers/optimal_prefetching.cpp:22-44 | reads every row once in order, two passes each, and returns the mean |
| OptimalPrefetching.PrefetchedAccess | embedding_layers/optimal_prefetching.cpp:47-89 | the two loops share the counter, so they read every position exactly once in order; they issue the lookahead hint trace and return the as-written result (two passes before n - k, `NUM_COLS` passes after) |
| OptimalPrefetching.FirstLoopAgrees | embedding_layers/optimal_prefetching.cpp:54-72 | the first loop contributes exactly what `regularAccess` contributes over the same positions |
| OptimalPrefetching.FoldedExcess | embedding_layers/optimal_prefetching.cpp:74-86 | each tail position adds `NUM_COLS - 2` passes more than `regularAccess` |
| OptimalPrefetching.PrefetchedMatchesRegularIff | embedding_layers/optimal_prefetching.cpp:75-88 | as written, the two results are equal exactly when every one of the last k rows read has squared sum 0 |
| OptimalPrefetching.TailPassesCounterexample | embedding_layers/optimal_prefetching.cpp:78 | one row `[1, 0, ..., 0]`, pattern `[0]` and k = 1 give 1.0 against 2/300, so the results do not match |
| OptimalPrefetching.ZeroTailMatches | embedding_layers/optimal_prefetching.cpp:186 | the "Results match" comparison for k succeeds whenever the last k rows read all square to 0 |
| OptimalPrefetching.ResultsMatchAtIff | embedding_layers/optimal_prefetching.cpp:186 | the comparison for k succeeds exactly when `NUM_COLS - 2` times the last k rows' squared sums, divided by `NUM_COLS` and by n, is below the 1e-10 tolerance |
| OptimalPrefetching.SweepMismatchExample | embedding_layers/optimal_prefetching.cpp:186 | twenty reads of the row `[1, 0, ..., 0]` make the comparison fail for every k from 1 to 20 |
| OptimalPrefetching.PrefetchedAccessCorrected | embedding_layers/optimal_prefetching.cpp:47-89 | with two passes in the tail, the same reads and hints return exactly the `regularAccess` result for every k <= n |
| OptimalPrefetching.SweepBest | embedding_layers/optimal_prefetching.cpp:133-196 | the best speedup is the maximum of 0.0 and all speedups; `best_prefetch_ahead` is 0 exactly when none exceeds 0.0, and then every field keeps its initial value; otherwise all `best_*` fields come from one k, and no earlier k reached that speedup, so later ties never replace it (each step is `UpdateBest`) |
| OptimalPrefetching.RunTests | embedding_layers/optimal_prefetching.cpp:150-166 | after the `NUM_RUNS` runs, `result1` is the `regularAccess` value and `result2` the as-written `prefetchedAccess` value for k |
| OptimalPrefetching.OptimalMain | embedding_layers/optimal_prefetching.cpp:128-197 | an empty pattern exits with status 1; k runs 1, 2, ... in ascending order; fewer than 20 rows print the flags for k = 1..n, then reach k = n + 1 and read out of bounds; otherwise all 20 values are tried, the best is the `Consider` fold over them, and the flag for k is line 186's comparison of `regularAccess` with the as-written `prefetchedAccess` |

## Left out

- File loading and tokenising (the GloVe reader and the input-word reader) are not modelled. The matrix and the access pattern are parameters, and every index of the pattern names a loaded row of the right width.
- Timing is not modelled: `std::chrono`, the millisecond conversion, the means, variances, `std::sqrt` and the speedup ratio. Each k's speedup, means and variances form a `Measurement` input.
- `NUM_RUNS` only repeats the timed runs. Each run recomputes the same values, so only the last results are kept.
- Floating point is modelled as exact reals. Rounding and NaN are not modelled. Where two access functions do the same operations in the same order (every pair except `optimal_prefetching.cpp`'s as written), their results are exactly equal in the model.
- The division by an empty pattern is not modelled. `regularAccess` and the other access functions require a non-empty pattern, because every `main` returns before calling them on one.
- `_mm_prefetch` is not modelled as a cache effect. It is only an entry of the ghost hint trace.
- The console output is not modelled: progress lines, the accuracy percentage and the final report. The progress line's `i % (n / 10)` is kept, because it divides by zero for short patterns.
- `VectorHash` is not modelled. A context is a Dafny map key of type `seq<nat>`.
- Counters and row indices are unbounded naturals. The `int` counts of the n-gram tables and the `size_t` counters never wrap in the model.
- NGram.PredictNextWord: requires `WellFormed` (no context maps to an empty successor map). `max_element` on an empty map would dereference `end()`. `NGram.BuiltModelsWellFormed` shows that tables built by `buildKGramModels` always satisfy it.
- NGramPrefetching.NgramPrefetch: the `tokens` parameter is accepted and unused, as in the source.

## Findings

| source | as written | input that shows it | evidently intended | confidence | as-written member | corrected member |
|---|---|---|---|---|---|---|
| embedding_layers/optimal_prefetching.cpp:78 | the tail loop of `prefetchedAccess` repeats the dot product `NUM_COLS` (300) times | one row `[1.0, 0.0, ..., 0.0]`, pattern `[0]`, k = 1: prefetched 1.0, regular 2/300 | two repetitions, as in the first loop (line 64) and `regularAccess` (line 34), so that "Results match" holds | not executed | OptimalPrefetching.TailPassesCounterexample | OptimalPrefetching.PrefetchedAccessCorrected |
