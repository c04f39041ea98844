/** Sums over finite maps, for termination measures. */
module Sums {
  ghost function Sum<K>(m: map<K, nat>): nat
    decreases |m|
  {
    if m == map[] then 0 else var k :| k in m; m[k] + Sum(m - {k})
  }

  lemma {:induction false} SumPeel<K>(m: map<K, nat>, k: K)
    requires k in m
    ensures Sum(m) == m[k] + Sum(m - {k})
    decreases |m|
  {
    var q :| q in m && Sum(m) == m[q] + Sum(m - {q});
    if q != k {
      SumPeel(m - {q}, k);
      SumPeel(m - {k}, q);
      assert m - {q} - {k} == m - {k} - {q};
    }
  }

  // A sum falls when no term grows, and falls strictly when some term does.
  lemma {:induction false} SumMonotone<K>(m: map<K, nat>, n: map<K, nat>)
    requires m.Keys == n.Keys && forall k :: k in m ==> n[k] <= m[k]
    ensures Sum(n) <= Sum(m)
    ensures (exists k :: k in m && n[k] < m[k]) ==> Sum(n) < Sum(m)
    decreases |m|
  {
    if m != map[] {
      var k :| k in m && ((exists q :: q in m && n[q] < m[q]) ==> n[k] < m[k]);
      SumPeel(m, k);
      SumPeel(n, k);
      SumMonotone(m - {k}, n - {k});
    }
  }
}
