/** Nested count tables: a key (an n-gram context, or the current row of a
    transition) maps to the counts of the rows observed right after it.

    Both kinds of table are filled with `table[key][next]++`, where
    `operator[]` of `unordered_map` first inserts a missing key (with an empty
    successor map) or a missing successor (with count 0), and are then read by
    an arg-max over the successors, whose iteration order `unordered_map`
    leaves unspecified. */
module Counting {

  type Table<K> = map<K, map<nat, nat>>

  /** The count of `next` after `key`; 0 when either is absent. */
  function Count<K>(t: Table<K>, key: K, next: nat): nat
  {
    if key in t && next in t[key] then t[key][next] else 0
  }

  /** The table after `t[key][next]++`. */
  function Bump<K>(t: Table<K>, key: K, next: nat): (r: Table<K>)
    ensures r.Keys == t.Keys + {key}
    ensures next in r[key]
    ensures forall k :: k in t && k != key ==> r[k] == t[k]
    ensures key in t ==> r[key].Keys == t[key].Keys + {next}
    ensures key !in t ==> r[key].Keys == {next}
  {
    var successors: map<nat, nat> := if key in t then t[key] else map[];
    var count: nat := if next in successors then successors[next] else 0;
    t[key := successors[next := count + 1]]
  }

  /** `t[key][next]++` adds one to exactly one count. */
  lemma CountBump<K>(t: Table<K>, key: K, next: nat, k: K, w: nat)
    ensures Count(Bump(t, key, next), k, w) == Count(t, k, w) + (if k == key && w == next then 1 else 0)
  {
  }

  /** What a table filled only by `Bump` looks like: every key has at least one
      successor, and every stored count is at least 1. */
  ghost predicate Positive<K>(t: Table<K>)
  {
    forall k :: k in t ==> t[k] != map[] && forall w :: w in t[k] ==> t[k][w] >= 1
  }

  lemma BumpPositive<K>(t: Table<K>, key: K, next: nat)
    requires Positive(t)
    ensures Positive(Bump(t, key, next))
  {
    var r := Bump(t, key, next);
    forall k | k in r
      ensures r[k] != map[] && forall w :: w in r[k] ==> r[k][w] >= 1
    {
      if k == key {
        assert next in r[k];
        forall w | w in r[k] ensures r[k][w] >= 1 {
          CountBump(t, key, next, k, w);
          if w != next {
            assert w in t[k];
          }
        }
      }
    }
  }

  /** `w` is a successor in `m` whose count no other successor exceeds. */
  ghost predicate IsArgmax(m: map<nat, nat>, w: nat)
  {
    w in m && forall x :: x in m ==> m[x] <= m[w]
  }

  /** Some successor in `m` has a positive count. */
  ghost predicate HasPositive(m: map<nat, nat>)
  {
    exists w :: w in m && m[w] > 0
  }

  /** `order` lists every key of `keys` exactly once: one possible iteration
      order of an `unordered_map` with those keys. */
  ghost predicate Enumerates(order: seq<nat>, keys: set<nat>)
  {
    (forall x :: x in order <==> x in keys) &&
    (forall i, j :: 0 <= i < j < |order| ==> order[i] != order[j])
  }

  /** In iteration order `order`, position `pos` holds `w` and every successor
      visited before it has a strictly smaller count: `w` is the first maximum
      met, which a strict `>` (or `max_element` with `<`) keeps. */
  ghost predicate FirstMaximumAt(m: map<nat, nat>, order: seq<nat>, pos: nat, w: nat)
  {
    pos < |order| && order[pos] == w && w in m &&
    forall j :: 0 <= j < pos ==> order[j] in m && m[order[j]] < m[w]
  }

  // Sums of counts, used to state how many increments a table has received.

  ghost function SumOver<K>(m: map<K, nat>, keys: set<K>): nat
    requires keys <= m.Keys
    decreases keys
  {
    if keys == {} then 0 else
      var k :| k in keys; m[k] + SumOver(m, keys - {k})
  }

  /** The sum of all values of `m`. */
  ghost function MapSum<K>(m: map<K, nat>): nat
  {
    SumOver(m, m.Keys)
  }

  lemma {:induction false} SumOverRemove<K>(m: map<K, nat>, keys: set<K>, k: K)
    requires keys <= m.Keys && k in keys
    ensures SumOver(m, keys) == m[k] + SumOver(m, keys - {k})
    decreases keys
  {
    var j :| j in keys && SumOver(m, keys) == m[j] + SumOver(m, keys - {j});
    if j != k {
      SumOverRemove(m, keys - {j}, k);
      SumOverRemove(m, keys - {k}, j);
      assert keys - {j} - {k} == keys - {k} - {j};
    }
  }

  lemma {:induction false} SumOverAgree<K>(m1: map<K, nat>, m2: map<K, nat>, keys: set<K>)
    requires keys <= m1.Keys && keys <= m2.Keys
    requires forall k :: k in keys ==> m1[k] == m2[k]
    ensures SumOver(m1, keys) == SumOver(m2, keys)
    decreases keys
  {
    if keys != {} {
      var k :| k in keys;
      SumOverRemove(m1, keys, k);
      SumOverRemove(m2, keys, k);
      SumOverAgree(m1, m2, keys - {k});
    }
  }

  /** Setting one value changes the sum by the difference. */
  lemma MapSumUpdate<K>(m: map<K, nat>, k: K, v: nat)
    ensures MapSum(m[k := v]) + (if k in m then m[k] else 0) == MapSum(m) + v
  {
    var m' := m[k := v];
    SumOverRemove(m', m'.Keys, k);
    assert m'.Keys - {k} == m.Keys - {k};
    SumOverAgree(m', m, m.Keys - {k});
    if k in m {
      SumOverRemove(m, m.Keys, k);
    } else {
      assert m.Keys - {k} == m.Keys;
    }
  }

  /** The per-key totals of a table. */
  ghost function KeyTotals<K>(t: Table<K>): map<K, nat>
  {
    map k | k in t :: MapSum(t[k])
  }

  /** The sum of every count in a table. */
  ghost function TableTotal<K>(t: Table<K>): nat
  {
    MapSum(KeyTotals(t))
  }

  lemma EmptyTableTotal<K>()
    ensures TableTotal<K>(map[]) == 0
  {
    assert KeyTotals<K>(map[]) == map[];
  }

  /** Every `t[key][next]++` adds exactly one to the table's total. */
  lemma BumpTotal<K>(t: Table<K>, key: K, next: nat)
    ensures TableTotal(Bump(t, key, next)) == TableTotal(t) + 1
  {
    var successors: map<nat, nat> := if key in t then t[key] else map[];
    var count: nat := if next in successors then successors[next] else 0;
    var updated := successors[next := count + 1];
    MapSumUpdate(successors, next, count + 1);
    assert MapSum(updated) == MapSum(successors) + 1;
    var totals := KeyTotals(t);
    assert KeyTotals(Bump(t, key, next)) == totals[key := MapSum(updated)];
    MapSumUpdate(totals, key, MapSum(updated));
    if key !in t {
      assert successors.Keys == {};
    }
  }
}
