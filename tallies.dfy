/** Counter tables: maps from a key to a count, bumped one at a time, as
    `table[k] = table[k] ? table[k] + 1 : 1` does in the solvers. */
module Tallies {

  /** The table after one more sighting of `k`. */
  function Inc<K>(m: map<K, nat>, k: K): (r: map<K, nat>)
    ensures r.Keys == m.Keys + {k}
    ensures r[k] == (if k in m then m[k] else 0) + 1
    ensures forall j | j in m && j != k :: r[j] == m[j]
  {
    m[k := (if k in m then m[k] else 0) + 1]
  }

  /** The sum of all counts in the table. */
  ghost function SumValues<K>(m: map<K, nat>): nat
    decreases |m|
  {
    if m == map[] then 0
    else
      var k :| k in m;
      m[k] + SumValues(m - {k})
  }

  /** The sum can be split at any key, not only the one the definition picks. */
  lemma {:induction false} SumValuesRemove<K>(m: map<K, nat>, k: K)
    requires k in m
    ensures SumValues(m) == m[k] + SumValues(m - {k})
    decreases |m|
  {
    var j :| j in m && SumValues(m) == m[j] + SumValues(m - {j});
    if j != k {
      var mj, mk := m - {j}, m - {k};
      assert |mj| < |m| by { assert mj.Keys < m.Keys; }
      assert |mk| < |m| by { assert mk.Keys < m.Keys; }
      SumValuesRemove(mj, k);
      SumValuesRemove(mk, j);
      assert mj - {k} == mk - {j};
    }
  }

  lemma SumValuesInc<K>(m: map<K, nat>, k: K)
    ensures SumValues(Inc(m, k)) == SumValues(m) + 1
  {
    var r := Inc(m, k);
    SumValuesRemove(r, k);
    assert r - {k} == m - {k};
    if k in m {
      SumValuesRemove(m, k);
    } else {
      assert m - {k} == m;
    }
  }
}
