/** Sums and collections over the values of a map. */
module MapTotals {

  ghost function Total<K, V>(m: map<K, V>, weight: V -> nat): nat {
    if m == map[] then 0
    else
      var k :| k in m;
      weight(m[k]) + Total(m - {k}, weight)
  }

  lemma {:induction false} TotalSplit<K, V>(m: map<K, V>, weight: V -> nat, k: K)
    requires k in m
    ensures Total(m, weight) == weight(m[k]) + Total(m - {k}, weight)
    decreases |m|
  {
    var k' :| k' in m && Total(m, weight) == weight(m[k']) + Total(m - {k'}, weight);
    if k' != k {
      TotalSplit(m - {k'}, weight, k);
      TotalSplit(m - {k}, weight, k');
      assert m - {k'} - {k} == m - {k} - {k'};
    }
  }

  /** Setting one value changes the total by the difference. */
  lemma TotalUpdate<K, V>(m: map<K, V>, weight: V -> nat, k: K, v: V)
    ensures Total(m[k := v], weight) + (if k in m then weight(m[k]) else 0) == Total(m, weight) + weight(v)
  {
    TotalSplit(m[k := v], weight, k);
    if k in m {
      TotalSplit(m, weight, k);
      assert m[k := v] - {k} == m - {k};
    } else {
      assert m[k := v] - {k} == m;
    }
  }

  lemma TotalRemove<K, V>(m: map<K, V>, weight: V -> nat, k: K)
    ensures Total(m, weight) == Total(m - {k}, weight) + if k in m then weight(m[k]) else 0
  {
    if k in m {
      TotalSplit(m, weight, k);
    } else {
      assert m - {k} == m;
    }
  }

  /** The keys that hold a value. */
  ghost function Holders<K, V>(m: map<K, V>, v: V): set<K> {
    set k | k in m && m[k] == v
  }

  /** Both maps hold every value equally often. */
  ghost predicate SameValues<K, V(!new)>(m: map<K, V>, m': map<K, V>) {
    forall v :: |Holders(m, v)| == |Holders(m', v)|
  }

  /** Moving a value to a new key keeps all values. */
  lemma ValuesMoved<K, V(!new)>(m: map<K, V>, from: K, to: K)
    requires from in m && to !in m
    ensures SameValues(m, m[to := m[from]] - {from})
    ensures |m[to := m[from]] - {from}| == |m|
  {
    var moved := m[to := m[from]] - {from};
    forall v
      ensures |Holders(m, v)| == |Holders(moved, v)|
    {
      if v == m[from] {
        assert Holders(moved, v) == Holders(m, v) - {from} + {to};
      } else {
        assert Holders(moved, v) == Holders(m, v);
      }
    }
    assert moved.Keys == m.Keys - {from} + {to};
    assert |moved.Keys| == |m.Keys|;
  }
}
