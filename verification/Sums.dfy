/** Sums of the values of a finite map. */
module Sums {

  ghost function MapSum(m: map<string, real>): real
    decreases |m|
  {
    if m == map[] then 0.0 else var k :| k in m; m[k] + MapSum(m - {k})
  }

  lemma {:induction false} MapSumRemove(m: map<string, real>, k: string)
    requires k in m
    ensures MapSum(m) == m[k] + MapSum(m - {k})
    decreases |m|
  {
    var j :| j in m && MapSum(m) == m[j] + MapSum(m - {j});
    if j != k {
      MapSumRemove(m - {j}, k);
      MapSumRemove(m - {k}, j);
      assert m - {j} - {k} == m - {k} - {j};
    }
  }

  lemma MapSumUpdate(m: map<string, real>, k: string, v: real)
    ensures MapSum(m[k := v]) == MapSum(m) + v - (if k in m then m[k] else 0.0)
  {
    MapSumRemove(m[k := v], k);
    assert m[k := v] - {k} == m - {k};
    if k in m { MapSumRemove(m, k); } else { assert m - {k} == m; }
  }
}
