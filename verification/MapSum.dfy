/** The sum of a map's values. */
module MapSum {

  ghost function Sum(m: map<nat, nat>): nat
    decreases |m|
  {
    if m == map[] then 0
    else
      var k :| k in m;
      m[k] + Sum(m - {k})
  }

  lemma {:induction false} SumAt(m: map<nat, nat>, k: nat)
    requires k in m
    ensures Sum(m) == m[k] + Sum(m - {k})
    decreases |m|
  {
    var j :| j in m && Sum(m) == m[j] + Sum(m - {j});
    if j != k {
      SumAt(m - {j}, k);
      SumAt(m - {k}, j);
      assert m - {j} - {k} == m - {k} - {j};
    }
  }

  lemma SumUpdate(m: map<nat, nat>, k: nat, v: nat)
    ensures Sum(m[k := v]) == Sum(m) - (if k in m then m[k] else 0) + v
  {
    SumAt(m[k := v], k);
    if k in m {
      SumAt(m, k);
      assert m[k := v] - {k} == m - {k};
    } else {
      assert m[k := v] - {k} == m;
    }
  }

  lemma SumRemove(m: map<nat, nat>, k: nat)
    ensures Sum(m - {k}) == Sum(m) - (if k in m then m[k] else 0)
  {
    if k in m { SumAt(m, k); } else { assert m - {k} == m; }
  }

  lemma {:induction false} SumMono(m: map<nat, nat>, m': map<nat, nat>)
    requires m.Keys == m'.Keys && forall k :: k in m ==> m'[k] <= m[k]
    ensures Sum(m') <= Sum(m)
    decreases |m|
  {
    if m == map[] {
      assert m' == map[];
    } else {
      var k :| k in m;
      SumAt(m, k);
      SumAt(m', k);
      SumMono(m - {k}, m' - {k});
    }
  }

  /** One term is no more than the sum. */
  lemma SumTerm(m: map<nat, nat>, k: nat)
    requires k in m
    ensures m[k] <= Sum(m)
  {
    SumAt(m, k);
  }
}
