/** The sum of the numbers in a map.

    Sums over directories, days and alerts are all sums over the values of a map.  The sum is
    defined by taking the keys in some order, and proved not to depend on it; putting a value in
    changes it by the difference. */
module MapSums {

  ghost function MapSum<K>(m: map<K, nat>): nat
    decreases |m.Keys|
  {
    if m == map[] then 0
    else
      var k :| k in m;
      assert |(m - {k}).Keys| < |m.Keys| by { assert (m - {k}).Keys == m.Keys - {k}; }
      m[k] + MapSum(m - {k})
  }

  /** Whichever key is taken out first, the sum is the same. */
  lemma {:induction false} MapSumMinus<K>(m: map<K, nat>, k: K)
    requires k in m
    ensures MapSum(m) == m[k] + MapSum(m - {k})
    decreases |m.Keys|
  {
    var first :| first in m && MapSum(m) == m[first] + MapSum(m - {first});
    if first != k {
      assert (m - {first}).Keys == m.Keys - {first};
      assert (m - {k}).Keys == m.Keys - {k};
      MapSumMinus(m - {first}, k);
      MapSumMinus(m - {k}, first);
      assert m - {first} - {k} == m - {k} - {first};
    }
  }

  lemma MapSumPut<K>(m: map<K, nat>, k: K, n: nat)
    ensures MapSum(m[k := n]) == MapSum(m) + n - if k in m then m[k] else 0
  {
    MapSumMinus(m[k := n], k);
    if k in m {
      MapSumMinus(m, k);
      assert m[k := n] - {k} == m - {k};
    } else {
      assert m[k := n] - {k} == m;
    }
  }

  lemma {:induction false} NoneSums<K>(m: map<K, nat>)
    requires forall k | k in m :: m[k] == 0
    ensures MapSum(m) == 0
    decreases |m.Keys|
  {
    if m != map[] {
      var k :| k in m;
      MapSumMinus(m, k);
      assert (m - {k}).Keys == m.Keys - {k};
      NoneSums(m - {k});
    }
  }
}
