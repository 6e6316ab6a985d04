// The sum of the values of a map.
module MapSum {

  ghost function Sum<K>(m: map<K, int>): int
    decreases |m|
  {
    if m == map[] then 0
    else
      var k :| k in m;
      m[k] + Sum(m - {k})
  }

  function Get<K>(m: map<K, int>, k: K): int {
    if k in m then m[k] else 0
  }

  lemma {:induction false} SumPick<K>(m: map<K, int>, k: K)
    requires k in m
    ensures Sum(m) == m[k] + Sum(m - {k})
    decreases |m|
  {
    var c :| c in m && Sum(m) == m[c] + Sum(m - {c});
    if c != k {
      SumPick(m - {c}, k);
      SumPick(m - {k}, c);
      assert m - {c} - {k} == m - {k} - {c};
    }
  }

  lemma SumRemove<K>(m: map<K, int>, k: K)
    ensures Sum(m - {k}) == Sum(m) - Get(m, k)
  {
    if k in m {
      SumPick(m, k);
    } else {
      assert m - {k} == m;
    }
  }

  lemma SumUpdate<K>(m: map<K, int>, k: K, v: int)
    ensures Sum(m[k := v]) == Sum(m) - Get(m, k) + v
  {
    SumPick(m[k := v], k);
    assert m[k := v] - {k} == m - {k};
    SumRemove(m, k);
  }

  lemma {:induction false} SumNonNegative<K>(m: map<K, int>)
    requires forall k | k in m :: m[k] >= 0
    ensures Sum(m) >= 0
    decreases |m|
  {
    if m != map[] {
      var k :| k in m;
      SumPick(m, k);
      SumNonNegative(m - {k});
    }
  }

  /** One value of a map without negative values is at most the sum. */
  lemma ValueAtMostSum<K>(m: map<K, int>, k: K)
    requires forall j | j in m :: m[j] >= 0
    ensures 0 <= Get(m, k) <= Sum(m)
  {
    SumRemove(m, k);
    SumNonNegative(m - {k});
  }
}
