/** The n-gram model of `ngram.hpp`: for each order k in 1..n a table from a
    (k-1)-token context to the counts of the token that followed it, built by
    `buildKGramModels`, and the backoff predictor `predictNextWord`. Tokens are
    row indices. A table is keyed by the context itself; the hash function the
    C++ table uses is not part of this model. */
module NGram {
  import opened Common
  import opened Counting

  /** The table of one order (the `NGram` type). */
  type NGramTable = Table<seq<nat>>

  /** How many positions i satisfy `i + k <= |tokens|`: the trip count of the
      inner loop of `buildKGramModels` for order k. */
  function Positions(tokens: seq<nat>, k: nat): (m: nat)
    requires k >= 1
    ensures m > 0 ==> m + k <= |tokens| + 1
    ensures |tokens| >= k ==> m == |tokens| - k + 1
  {
    if |tokens| + 1 >= k then |tokens| + 1 - k else 0
  }

  /** The k-1 tokens before position i + k - 1. */
  function Context(tokens: seq<nat>, k: nat, i: nat): (c: seq<nat>)
    requires k >= 1 && i + k <= |tokens|
    ensures |c| == k - 1
  {
    tokens[i .. i + k - 1]
  }

  /** Order k's table after the inner loop has counted positions 0 .. m-1. */
  function Fill(t: NGramTable, tokens: seq<nat>, k: nat, m: nat): NGramTable
    requires k >= 1 && m <= Positions(tokens, k)
  {
    if m == 0 then t
    else Bump(Fill(t, tokens, k, m - 1), Context(tokens, k, m - 1), tokens[m + k - 2])
  }

  /** Order k's table after `buildKGramModels` has counted every position. */
  function CountKGrams(t: NGramTable, tokens: seq<nat>, k: nat): NGramTable
    requires k >= 1
  {
    Fill(t, tokens, k, Positions(tokens, k))
  }

  /** The number of positions i < m where `ctx` is followed by `w`. */
  function Occurrences(tokens: seq<nat>, k: nat, ctx: seq<nat>, w: nat, m: nat): nat
    requires k >= 1 && m <= Positions(tokens, k)
  {
    if m == 0 then 0
    else
      var here := if Context(tokens, k, m - 1) == ctx && tokens[m + k - 2] == w then 1 else 0;
      Occurrences(tokens, k, ctx, w, m - 1) + here
  }

  /** Counting adds, to each (context, successor) pair, the number of positions
      where that context is followed by that successor. */
  lemma {:induction false} FillCounts(t: NGramTable, tokens: seq<nat>, k: nat, m: nat, ctx: seq<nat>, w: nat)
    requires k >= 1 && m <= Positions(tokens, k)
    ensures Count(Fill(t, tokens, k, m), ctx, w) == Count(t, ctx, w) + Occurrences(tokens, k, ctx, w, m)
  {
    if m > 0 {
      FillCounts(t, tokens, k, m - 1, ctx, w);
      CountBump(Fill(t, tokens, k, m - 1), Context(tokens, k, m - 1), tokens[m + k - 2], ctx, w);
    }
  }

  /** The contexts that counting adds are exactly those seen at a position < m. */
  lemma {:induction false} FillKeys(t: NGramTable, tokens: seq<nat>, k: nat, m: nat, ctx: seq<nat>)
    requires k >= 1 && m <= Positions(tokens, k)
    ensures ctx in Fill(t, tokens, k, m) <==>
      ctx in t || exists i :: 0 <= i < m && Context(tokens, k, i) == ctx
  {
    if m > 0 {
      FillKeys(t, tokens, k, m - 1, ctx);
    }
  }

  lemma {:induction false} FillPositive(t: NGramTable, tokens: seq<nat>, k: nat, m: nat)
    requires k >= 1 && m <= Positions(tokens, k) && Positive(t)
    ensures Positive(Fill(t, tokens, k, m))
  {
    if m > 0 {
      FillPositive(t, tokens, k, m - 1);
      BumpPositive(Fill(t, tokens, k, m - 1), Context(tokens, k, m - 1), tokens[m + k - 2]);
    }
  }

  /** Every increment adds one to the table's total. */
  lemma {:induction false} FillTotal(t: NGramTable, tokens: seq<nat>, k: nat, m: nat)
    requires k >= 1 && m <= Positions(tokens, k)
    ensures TableTotal(Fill(t, tokens, k, m)) == TableTotal(t) + m
  {
    if m > 0 {
      FillTotal(t, tokens, k, m - 1);
      BumpTotal(Fill(t, tokens, k, m - 1), Context(tokens, k, m - 1), tokens[m + k - 2]);
    }
  }

  /** A positive count is witnessed by a position of the token sequence. */
  lemma {:induction false} OccurrenceWitness(tokens: seq<nat>, k: nat, ctx: seq<nat>, w: nat, m: nat)
    requires k >= 1 && m <= Positions(tokens, k)
    requires Occurrences(tokens, k, ctx, w, m) > 0
    ensures exists i :: 0 <= i < m && Context(tokens, k, i) == ctx && tokens[i + k - 1] == w
  {
    if !(Context(tokens, k, m - 1) == ctx && tokens[m + k - 2] == w) {
      OccurrenceWitness(tokens, k, ctx, w, m - 1);
    }
  }

  /** Counting order k from an empty table: `models[k-1][ctx][w]` is the
      number of positions where `ctx` is followed by `w`, a context is present
      exactly when it occurs, every context has k-1 tokens and at least one
      successor, and every stored count is positive. */
  lemma KGramCounts(tokens: seq<nat>, k: nat, t: NGramTable)
    requires k >= 1 && t == CountKGrams(map[], tokens, k)
    ensures forall ctx, w :: Count(t, ctx, w) == Occurrences(tokens, k, ctx, w, Positions(tokens, k))
    ensures forall ctx :: ctx in t <==>
      exists i :: 0 <= i < Positions(tokens, k) && Context(tokens, k, i) == ctx
    ensures forall ctx :: ctx in t ==> |ctx| == k - 1
    ensures Positive(t)
  {
    var m := Positions(tokens, k);
    forall ctx, w ensures Count(t, ctx, w) == Occurrences(tokens, k, ctx, w, m) {
      FillCounts(map[], tokens, k, m, ctx, w);
    }
    forall ctx ensures ctx in t <==> exists i :: 0 <= i < m && Context(tokens, k, i) == ctx {
      FillKeys(map[], tokens, k, m, ctx);
    }
    FillPositive(map[], tokens, k, m);
  }

  /** The counts of order k add up to the number of positions, |tokens|-k+1
      when there are at least k tokens; with fewer the table is left as it was. */
  lemma KGramTotal(t: NGramTable, tokens: seq<nat>, k: nat)
    requires k >= 1
    ensures TableTotal(CountKGrams(t, tokens, k)) == TableTotal(t) + Positions(tokens, k)
    ensures |tokens| >= k ==> TableTotal(CountKGrams(map[], tokens, k)) == |tokens| - k + 1
    ensures |tokens| < k ==> CountKGrams(t, tokens, k) == t
  {
    FillTotal(t, tokens, k, Positions(tokens, k));
    FillTotal(map[], tokens, k, Positions(tokens, k));
    EmptyTableTotal<seq<nat>>();
  }

  /** The inner loop of `buildKGramModels` for one order k:
      `models[k-1][prefix][nextWord]++` at every position where k tokens fit,
      leaving every other table alone. */
  method CountOrder(models: array<NGramTable>, tokens: seq<nat>, k: nat)
    requires 1 <= k <= models.Length
    modifies models
    ensures models[k - 1] == CountKGrams(old(models[k - 1]), tokens, k)
    ensures forall j :: 0 <= j < models.Length && j != k - 1 ==> models[j] == old(models[j])
  {
    ghost var initial := models[k - 1];
    var i := 0;
    while i + k <= |tokens|
      invariant i <= Positions(tokens, k)
      invariant models[k - 1] == Fill(initial, tokens, k, i)
      invariant forall j :: 0 <= j < models.Length && j != k - 1 ==> models[j] == old(models[j])
    {
      CountPosition(models, tokens, k, i, initial);
      i := i + 1;
    }
  }

  /** One position of that loop: `models[k-1][prefix][nextWord]++` with the
      k-1 tokens from position i as prefix and the token after them as
      nextWord. */
  method CountPosition(models: array<NGramTable>, tokens: seq<nat>, k: nat, i: nat, ghost initial: NGramTable)
    requires 1 <= k <= models.Length && i + k <= |tokens|
    requires models[k - 1] == Fill(initial, tokens, k, i)
    modifies models
    ensures models[k - 1] == Fill(initial, tokens, k, i + 1)
    ensures forall j :: 0 <= j < models.Length && j != k - 1 ==> models[j] == old(models[j])
  {
    var prefix := tokens[i .. i + k - 1];
    var nextWord := tokens[i + k - 1];
    models[k - 1] := Bump(models[k - 1], prefix, nextWord);
  }

  /** `buildKGramModels(models, tokens, n)`: counts every order 1..n into
      `models[0..n-1]` and leaves the entries from n on alone. The caller
      must supply at least n tables. */
  method BuildKGramModels(models: array<NGramTable>, tokens: seq<nat>, n: nat)
    requires n <= models.Length
    modifies models
    ensures forall j :: 0 <= j < n ==> models[j] == CountKGrams(old(models[j]), tokens, j + 1)
    ensures forall j :: n <= j < models.Length ==> models[j] == old(models[j])
  {
    var k := 1;
    while k <= n
      invariant 1 <= k <= n + 1
      invariant forall j :: 0 <= j < k - 1 ==> models[j] == CountKGrams(old(models[j]), tokens, j + 1)
      invariant forall j :: k - 1 <= j < models.Length ==> models[j] == old(models[j])
    {
      CountOrder(models, tokens, k);
      k := k + 1;
    }
  }

  // Prediction with backoff.

  /** The last `len` tokens of the query. */
  function Suffix(query: seq<nat>, len: nat): seq<nat>
    requires len <= |query|
  {
    query[|query| - len..]
  }

  /** The order `predictNextWord` answers from when it starts at order k: the
      highest order j <= k whose j-1 context tokens fit in the query and whose
      table holds the query's last j-1 tokens; None if there is none. */
  function MatchedOrder(models: seq<NGramTable>, query: seq<nat>, k: nat): (r: Option<nat>)
    requires k <= |models|
    ensures r.Some? ==> 1 <= r.value <= k && r.value - 1 <= |query| &&
                        Suffix(query, r.value - 1) in models[r.value - 1]
  {
    if k == 0 then None
    else if |query| >= k - 1 && Suffix(query, k - 1) in models[k - 1] then Some(k)
    else MatchedOrder(models, query, k - 1)
  }

  /** Backoff order: no order above the matched one (or none at all, when
      nothing matched) has its context, of fitting length, in its table. */
  lemma {:induction false} MatchedOrderIsHighest(models: seq<NGramTable>, query: seq<nat>, k: nat)
    requires k <= |models|
    ensures var r := MatchedOrder(models, query, k);
      forall j :: (if r.Some? then r.value else 0) <= j < k && j <= |query| ==>
        Suffix(query, j) !in models[j]
  {
    if k > 0 && !(|query| >= k - 1 && Suffix(query, k - 1) in models[k - 1]) {
      MatchedOrderIsHighest(models, query, k - 1);
    }
  }

  /** `r` is an answer `predictNextWord(models, query)` may give: a successor of
      maximal count of the matched context, or 0 when no order matches. Which
      of several tied successors is returned depends on the iteration order of
      the successor table and is not determined. */
  ghost predicate IsPrediction(models: seq<NGramTable>, query: seq<nat>, r: nat)
  {
    match MatchedOrder(models, query, |models|)
    case None => r == 0
    case Some(k) => IsArgmax(models[k - 1][Suffix(query, k - 1)], r)
  }

  /** Every context present in a table has at least one successor (true of
      every table `buildKGramModels` produces). */
  ghost predicate WellFormed(models: seq<NGramTable>)
  {
    forall j, ctx :: 0 <= j < |models| && ctx in models[j] ==> models[j][ctx] != map[]
  }

  /** `max_element` over a successor table with "count less than" as the
      ordering: the first successor, in the table's iteration order, whose
      count no later successor exceeds. The iteration order is the order of
      the choices made here, returned as `order`. */
  method MaxElement(successors: map<nat, nat>) returns (best: nat, ghost order: seq<nat>, ghost pos: nat)
    requires successors != map[]
    ensures IsArgmax(successors, best)
    ensures Enumerates(order, successors.Keys)
    ensures FirstMaximumAt(successors, order, pos, best)
  {
    var remaining := successors.Keys;
    best :| best in remaining;
    remaining := remaining - {best};
    order, pos := [best], 0;
    while remaining != {}
      invariant remaining <= successors.Keys
      invariant forall x :: x in order <==> x in successors.Keys && x !in remaining
      invariant forall i, j :: 0 <= i < j < |order| ==> order[i] != order[j]
      invariant best in successors
      invariant forall x :: x in order ==> successors[x] <= successors[best]
      invariant FirstMaximumAt(successors, order, pos, best)
      decreases remaining
    {
      var x :| x in remaining;
      if successors[best] < successors[x] {
        best, pos := x, |order|;
      }
      order := order + [x];
      remaining := remaining - {x};
    }
  }

  /** `predictNextWord(models, query)`: tries orders from `models.size()` down
      to 1, skips an order whose context is longer than the query, and answers
      from the first order whose table holds the query's last k-1 tokens, with
      a successor of maximal count; 0 when no order matches. */
  method PredictNextWord(models: seq<NGramTable>, query: seq<nat>) returns (r: nat)
    requires WellFormed(models)
    ensures IsPrediction(models, query, r)
  {
    var k: nat := |models|;
    while k > 0
      invariant k <= |models|
      invariant MatchedOrder(models, query, |models|) == MatchedOrder(models, query, k)
    {
      if |query| >= k - 1 {
        var prefix := query[|query| - (k - 1)..];
        if prefix in models[k - 1] {
          assert prefix == Suffix(query, k - 1);
          assert MatchedOrder(models, query, k) == Some(k);
          ghost var order, pos;
          r, order, pos := MaxElement(models[k - 1][prefix]);
          return;
        }
        assert prefix == Suffix(query, k - 1);
      }
      k := k - 1;
    }
    return 0;
  }

  /** Order 1 has an empty context at every position, so counting it over a
      non-empty token sequence stores the empty context. */
  lemma EmptyContextCounted(tokens: seq<nat>, t: NGramTable)
    requires |tokens| >= 1 && t == CountKGrams(map[], tokens, 1)
    ensures [] in t
  {
    KGramCounts(tokens, 1, t);
    assert Context(tokens, 1, 0) == [];
  }

  /** Every successor stored by counting order k is a token of the sequence. */
  lemma CountedSuccessorOccurs(tokens: seq<nat>, k: nat, t: NGramTable, ctx: seq<nat>, w: nat)
    requires k >= 1 && t == CountKGrams(map[], tokens, k)
    requires ctx in t && w in t[ctx]
    ensures w in tokens
  {
    KGramCounts(tokens, k, t);
    assert Count(t, ctx, w) >= 1;
    OccurrenceWitness(tokens, k, ctx, w, Positions(tokens, k));
    var i :| 0 <= i < Positions(tokens, k) && Context(tokens, k, i) == ctx && tokens[i + k - 1] == w;
    assert tokens[i + k - 1] in tokens;
  }

  /** When every order 1..|models| was counted from a non-empty token
      sequence, the empty context is in the order-1 table, so prediction
      always matches some order (never falls through to the default 0) and
      answers with a token that occurs in the sequence. */
  lemma PredictionFromBuiltModels(models: seq<NGramTable>, tokens: seq<nat>, query: seq<nat>, r: nat)
    requires |models| >= 1 && |tokens| >= 1
    requires forall j :: 0 <= j < |models| ==> models[j] == CountKGrams(map[], tokens, j + 1)
    requires IsPrediction(models, query, r)
    ensures MatchedOrder(models, query, |models|).Some?
    ensures r in tokens
  {
    EmptyContextCounted(tokens, models[0]);
    assert Suffix(query, 0) == [];
    MatchedOrderIsHighest(models, query, |models|);
    var k := MatchedOrder(models, query, |models|).value;
    CountedSuccessorOccurs(tokens, k, models[k - 1], Suffix(query, k - 1), r);
  }

  /** Tables counted from tokens are well formed, so `predictNextWord` can be
      called on them. */
  lemma BuiltModelsWellFormed(models: seq<NGramTable>, tokens: seq<nat>)
    requires forall j :: 0 <= j < |models| ==> models[j] == CountKGrams(map[], tokens, j + 1)
    ensures WellFormed(models)
  {
    forall j | 0 <= j < |models|
      ensures forall ctx :: ctx in models[j] ==> models[j][ctx] != map[]
    {
      KGramCounts(tokens, j + 1, models[j]);
    }
  }
}
