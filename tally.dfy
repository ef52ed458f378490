/**
 * Integer-keyed counters, as used for the driver's status-code distribution:
 * a map from key to count, incremented one observation at a time, whose
 * counts add up to the number of observations.
 */
module Tally {

  /** Adds one observation under `key` (Go's `m[key]++`); a missing key starts at zero. */
  function Bump(m: map<int, nat>, key: int): (r: map<int, nat>)
    ensures r.Keys == m.Keys + {key}
    ensures r[key] == (if key in m then m[key] else 0) + 1
    ensures forall k :: k in m && k != key ==> r[k] == m[k]
  {
    m[key := (if key in m then m[key] else 0) + 1]
  }

  lemma NonEmptyHasMember(keys: set<int>)
    requires keys != {}
    ensures exists k :: k in keys
  {
    if forall k :: k !in keys {
      assert false;
    }
  }

  /** Sum of the counts stored under `keys`. */
  ghost function SumOver(m: map<int, nat>, keys: set<int>): nat
    requires keys <= m.Keys
    decreases keys
  {
    if keys == {} then 0
    else
      NonEmptyHasMember(keys);
      var k :| k in keys;
      m[k] + SumOver(m, keys - {k})
  }

  /** Sum of all counts of the map. */
  ghost function Total(m: map<int, nat>): nat
  {
    SumOver(m, m.Keys)
  }

  /** The sum does not depend on which key is taken out first. */
  lemma {:induction false} SumOverRemove(m: map<int, nat>, keys: set<int>, k: int)
    requires keys <= m.Keys && k in keys
    ensures SumOver(m, keys) == m[k] + SumOver(m, keys - {k})
    decreases keys
  {
    var j :| j in keys && SumOver(m, keys) == m[j] + SumOver(m, keys - {j});
    if j != k {
      SumOverRemove(m, keys - {j}, k);
      SumOverRemove(m, keys - {k}, j);
      assert keys - {j} - {k} == keys - {k} - {j};
    }
  }

  /** Two maps that agree on `keys` have the same sum over them. */
  lemma {:induction false} SumOverAgree(m1: map<int, nat>, m2: map<int, nat>, keys: set<int>)
    requires keys <= m1.Keys && keys <= m2.Keys
    requires forall k :: k in keys ==> m1[k] == m2[k]
    ensures SumOver(m1, keys) == SumOver(m2, keys)
    decreases keys
  {
    if keys != {} {
      NonEmptyHasMember(keys);
      var k :| k in keys;
      SumOverRemove(m1, keys, k);
      SumOverRemove(m2, keys, k);
      SumOverAgree(m1, m2, keys - {k});
    }
  }

  /** Every observation adds exactly one to the total. */
  lemma TotalBump(m: map<int, nat>, key: int)
    ensures Total(Bump(m, key)) == Total(m) + 1
  {
    var r := Bump(m, key);
    SumOverRemove(r, r.Keys, key);
    SumOverAgree(r, m, m.Keys - {key});
    assert r.Keys - {key} == m.Keys - {key};
    if key in m {
      SumOverRemove(m, m.Keys, key);
    } else {
      assert m.Keys - {key} == m.Keys;
    }
  }

  lemma TotalEmpty()
    ensures Total(map[]) == 0
  {
  }
}
