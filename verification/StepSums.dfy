/** Sums of natural numbers stored in a map. */
module StepSums {

  ghost function SumOf<K(!new)>(m: map<K, nat>): nat
    decreases |m|
  {
    if m == map[] then 0
    else
      var k :| k in m;
      m[k] + SumOf(m - {k})
  }

  /** The sum does not depend on the order: any key may be taken out first. */
  lemma {:induction false} SumRemove<K(!new)>(m: map<K, nat>, k: K)
    requires k in m
    ensures SumOf(m) == m[k] + SumOf(m - {k})
    decreases |m|
  {
    var j :| j in m && SumOf(m) == m[j] + SumOf(m - {j});
    if j != k {
      SumRemove(m - {j}, k);
      SumRemove(m - {k}, j);
      assert m - {j} - {k} == m - {k} - {j};
    }
  }

  lemma SumUpdate<K(!new)>(m: map<K, nat>, k: K, n: nat)
    ensures SumOf(m[k := n]) + (if k in m then m[k] else 0) == SumOf(m) + n
  {
    var u := m[k := n];
    SumRemove(u, k);
    if k in m {
      SumRemove(m, k);
      assert u - {k} == m - {k};
    } else {
      assert u - {k} == m;
    }
  }

  lemma SumAtLeast<K(!new)>(m: map<K, nat>, k: K)
    requires k in m
    ensures m[k] <= SumOf(m)
  {
    SumRemove(m, k);
  }

  /** The total over a row of maps. */
  ghost function SumAll<K(!new)>(s: seq<map<K, nat>>): nat {
    if s == [] then 0 else SumAll(s[..|s| - 1]) + SumOf(s[|s| - 1])
  }

  lemma {:induction false} SumAllUpdate<K(!new)>(s: seq<map<K, nat>>, i: nat, m: map<K, nat>)
    requires i < |s|
    ensures SumAll(s[i := m]) + SumOf(s[i]) == SumAll(s) + SumOf(m)
    ensures SumOf(s[i]) <= SumAll(s)
    decreases |s|
  {
    var n := |s| - 1;
    assert s[i := m][..n] == if i < n then s[..n][i := m] else s[..n];
    if i < n {
      SumAllUpdate(s[..n], i, m);
    }
  }
}
