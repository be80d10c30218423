// Totals over finite maps, the way an iterator's `sum` adds up the entries of an ordered map.
module Sums {
  ghost function Sum<K(!new)>(m: map<K, nat>): nat
    decreases |m|
  {
    if m == map[] then 0
    else
      var k :| k in m;
      Smaller(m, k);
      m[k] + Sum(m - {k})
  }

  lemma Smaller<K, V>(m: map<K, V>, k: K)
    requires k in m
    ensures |m - {k}| == |m| - 1
  {
    assert (m - {k}).Keys == m.Keys - {k};
    assert |m| == |m.Keys| && |m - {k}| == |(m - {k}).Keys|;
  }

  // Whichever entry is counted first, the total is the same.
  lemma {:induction false} SumTake<K(!new)>(m: map<K, nat>, k: K)
    requires k in m
    ensures Sum(m) == m[k] + Sum(m - {k})
    decreases |m|
  {
    var j :| j in m && Sum(m) == m[j] + Sum(m - {j});
    if j != k {
      Smaller(m, j);
      SumTake(m - {j}, k);
      Smaller(m, k);
      SumTake(m - {k}, j);
      assert (m - {j}) - {k} == (m - {k}) - {j};
    }
  }

  lemma SumPut<K(!new)>(m: map<K, nat>, k: K, n: nat)
    ensures Sum(m[k := n]) == n + Sum(m - {k})
    ensures Sum(m[k := n]) == n + Sum(m) - (if k in m then m[k] else 0)
  {
    SumTake(m[k := n], k);
    assert m[k := n] - {k} == m - {k};
    if k in m { SumTake(m, k); } else { assert m - {k} == m; }
  }

  // No entry is more than the total, and a part is no more than the whole.
  lemma {:induction false} SumPart<K(!new)>(part: map<K, nat>, whole: map<K, nat>)
    requires forall k :: k in part ==> k in whole && part[k] <= whole[k]
    ensures Sum(part) <= Sum(whole)
    decreases |part|
  {
    if part != map[] {
      var k :| k in part;
      SumTake(part, k);
      SumTake(whole, k);
      Smaller(part, k);
      SumPart(part - {k}, whole - {k});
    }
  }
}
