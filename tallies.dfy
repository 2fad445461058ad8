/**
 * Keyed counters as the parser keeps them in plain objects
 * (`record[key] = (record[key] || 0) + n`) and the sum of their values.
 */
module Tallies {

  /** `record[key] || 0`: the count of a key, 0 when it is absent. */
  function Get<K>(m: map<K, int>, k: K): int {
    if k in m then m[k] else 0
  }

  /** `record[key] = (record[key] || 0) + d`. */
  function Inc<K(!new)>(m: map<K, int>, k: K, d: int): (r: map<K, int>)
    ensures r.Keys == m.Keys + {k}
    ensures Get(r, k) == Get(m, k) + d
    ensures forall j :: j != k ==> Get(r, j) == Get(m, j)
  {
    m[k := Get(m, k) + d]
  }

  /** The sum of the values of `m` at `keys`. */
  ghost function SumKeys<K>(m: map<K, int>, keys: set<K>): int
    requires keys <= m.Keys
    decreases |keys|
  {
    if keys == {} then 0
    else
      var k :| k in keys;
      m[k] + SumKeys(m, keys - {k})
  }

  /** The sum of all values of `m`. */
  ghost function Total<K>(m: map<K, int>): int {
    SumKeys(m, m.Keys)
  }

  /** The sum does not depend on which key is taken out first. */
  lemma {:induction false} SumKeysRemove<K>(m: map<K, int>, keys: set<K>, k: K)
    requires keys <= m.Keys && k in keys
    ensures SumKeys(m, keys) == m[k] + SumKeys(m, keys - {k})
    decreases |keys|
  {
    var j :| j in keys && SumKeys(m, keys) == m[j] + SumKeys(m, keys - {j});
    if j != k {
      SumKeysRemove(m, keys - {j}, k);
      SumKeysRemove(m, keys - {k}, j);
      assert keys - {j} - {k} == keys - {k} - {j};
    }
  }

  lemma {:induction false} SumKeysAdd<K>(m: map<K, int>, keys: set<K>, k: K)
    requires keys <= m.Keys && k in m && k !in keys
    ensures SumKeys(m, keys + {k}) == SumKeys(m, keys) + m[k]
  {
    SumKeysRemove(m, keys + {k}, k);
    assert keys + {k} - {k} == keys;
  }

  /** Two maps that agree on `keys` have the same sum over them. */
  lemma {:induction false} SumKeysAgree<K>(m1: map<K, int>, m2: map<K, int>, keys: set<K>)
    requires keys <= m1.Keys && keys <= m2.Keys
    requires forall k :: k in keys ==> m1[k] == m2[k]
    ensures SumKeys(m1, keys) == SumKeys(m2, keys)
    decreases |keys|
  {
    if keys != {} {
      var k :| k in keys;
      SumKeysRemove(m1, keys, k);
      SumKeysRemove(m2, keys, k);
      SumKeysAgree(m1, m2, keys - {k});
    }
  }

  /** Incrementing one counter by `d` raises the total by `d`. */
  lemma {:induction false} TotalInc<K(!new)>(m: map<K, int>, k: K, d: int)
    ensures Total(Inc(m, k, d)) == Total(m) + d
  {
    var r := Inc(m, k, d);
    if k in m {
      assert r.Keys == m.Keys;
      SumKeysRemove(r, r.Keys, k);
      SumKeysRemove(m, m.Keys, k);
      SumKeysAgree(r, m, m.Keys - {k});
    } else {
      SumKeysRemove(r, r.Keys, k);
      assert r.Keys - {k} == m.Keys;
      SumKeysAgree(r, m, m.Keys);
    }
  }
}
