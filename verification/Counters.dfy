/** Python's Counter: missing keys count zero, and totals do not depend on the order of summing. */
module Counters {

  function Count<K(==)>(counts: map<K, nat>, key: K): nat { if key in counts then counts[key] else 0 }

  function Bump<K(==)>(counts: map<K, nat>, key: K): map<K, nat> { counts[key := Count(counts, key) + 1] }

  ghost function SumOver<K(!new)>(counts: map<K, nat>, keys: set<K>): nat
    requires keys <= counts.Keys
  {
    if keys == {} then 0
    else
      var k :| k in keys;
      counts[k] + SumOver(counts, keys - {k})
  }

  ghost function Total<K(!new)>(counts: map<K, nat>): nat { SumOver(counts, counts.Keys) }

  lemma {:induction false} SumTake<K(!new)>(counts: map<K, nat>, keys: set<K>, k: K)
    requires keys <= counts.Keys && k in keys
    ensures SumOver(counts, keys) == counts[k] + SumOver(counts, keys - {k})
    decreases keys
  {
    var first :| first in keys && SumOver(counts, keys) == counts[first] + SumOver(counts, keys - {first});
    if first != k {
      SumTake(counts, keys - {first}, k);
      SumTake(counts, keys - {k}, first);
      assert keys - {first} - {k} == keys - {k} - {first};
    }
  }

  lemma {:induction false} SumSame<K(!new)>(a: map<K, nat>, b: map<K, nat>, keys: set<K>)
    requires keys <= a.Keys && keys <= b.Keys && forall k :: k in keys ==> a[k] == b[k]
    ensures SumOver(a, keys) == SumOver(b, keys)
    decreases keys
  {
    if keys != {} {
      var k :| k in keys;
      SumTake(a, keys, k);
      SumTake(b, keys, k);
      SumSame(a, b, keys - {k});
    }
  }

  lemma BumpTotal<K(!new)>(counts: map<K, nat>, key: K)
    ensures Total(Bump(counts, key)) == Total(counts) + 1
  {
    var more := Bump(counts, key);
    SumTake(more, more.Keys, key);
    SumSame(more, counts, more.Keys - {key});
    if key in counts {
      SumTake(counts, counts.Keys, key);
      assert more.Keys - {key} == counts.Keys - {key};
    } else {
      assert more.Keys - {key} == counts.Keys;
    }
  }

  /** `sum(counts.values())`, in any order. */
  method SumValues<K(==, !new)>(counts: map<K, nat>) returns (total: nat)
    ensures total == Total(counts)
  {
    total := 0;
    var left := counts.Keys;
    while left != {}
      invariant left <= counts.Keys && total + SumOver(counts, left) == Total(counts)
      decreases |left|
    {
      var k :| k in left;
      SumTake(counts, left, k);
      total, left := total + counts[k], left - {k};
    }
  }
}
