/** Sums over the values of a dictionary (a JavaScript object used as a map). */
module Sums {

  /** The sum of all values of `m`, in no particular order. */
  ghost function MapSum<K>(m: map<K, real>): real
    decreases |m|
  {
    if |m| == 0 then 0.0
    else
      var k :| k in m;
      RemoveSmaller(m, k);
      m[k] + MapSum(m - {k})
  }

  lemma RemoveSmaller<K>(m: map<K, real>, k: K)
    requires k in m
    ensures |m - {k}| == |m| - 1
  {
    assert (m - {k}).Keys == m.Keys - {k};
  }

  /** Some key is taken out first when the sum is unfolded once. */
  lemma Unfold<K>(m: map<K, real>) returns (j: K)
    requires |m| > 0
    ensures j in m && MapSum(m) == m[j] + MapSum(m - {j})
  {
    j :| j in m && MapSum(m) == m[j] + MapSum(m - {j});
  }

  /** Any key can be taken out first: the sum does not depend on the order. */
  lemma {:induction false} MapSumRemove<K>(m: map<K, real>, k: K)
    requires k in m
    ensures MapSum(m) == m[k] + MapSum(m - {k})
    decreases |m|
  {
    RemoveSmaller(m, k);
    var j := Unfold(m);
    if j != k {
      var mj, mk := m - {j}, m - {k};
      RemoveSmaller(m, j);
      RemoveSmaller(m, k);
      assert k in mj && j in mk;
      MapSumRemove(mj, k);
      MapSumRemove(mk, j);
      assert mj - {k} == mk - {j};
      assert mj[k] == m[k] && mk[j] == m[j];
    }
  }

  /** Storing `v` under `k` changes the sum by `v` minus what `k` held. */
  lemma MapSumUpdate<K>(m: map<K, real>, k: K, v: real)
    ensures MapSum(m[k := v]) == MapSum(m) - (if k in m then m[k] else 0.0) + v
  {
    MapSumRemove(m[k := v], k);
    assert m[k := v] - {k} == m - {k};
    if k in m {
      MapSumRemove(m, k);
    } else {
      assert m - {k} == m;
    }
  }

  /**
   * `v` is `Math.max(0, ...Object.values(m))`: no value exceeds it, and it is
   * either 0 or one of the values.
   */
  predicate IsMaxOrZero<K>(m: map<K, real>, v: real) {
    && v >= 0.0
    && (forall k :: k in m ==> m[k] <= v)
    && (v == 0.0 || exists k :: k in m && m[k] == v)
  }

  /** `Math.max(0, ...Object.values(m))`, taking the values one at a time. */
  method MaxOrZero<K(==)>(m: map<K, real>) returns (best: real)
    ensures IsMaxOrZero(m, best)
  {
    best := 0.0;
    var rest := m.Keys;
    while rest != {}
      invariant rest <= m.Keys
      invariant best >= 0.0
      invariant forall k :: k in m && k !in rest ==> m[k] <= best
      invariant best == 0.0 || exists k :: k in m && m[k] == best
      decreases |rest|
    {
      var k :| k in rest;
      if m[k] > best {
        best := m[k];
      }
      rest := rest - {k};
    }
  }
}
