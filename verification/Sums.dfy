/** Sums of weights over a set of keys. */
module Sums {

  /** A key without a weight counts nothing. */
  function At<K(==)>(w: map<K, nat>, k: K): nat {
    if k in w then w[k] else 0
  }

  ghost function Sum<K>(w: map<K, nat>, keys: set<K>): nat {
    if keys == {} then 0
    else
      var k :| k in keys;
      At(w, k) + Sum(w, keys - {k})
  }

  lemma {:induction false} SumWithout<K>(w: map<K, nat>, keys: set<K>, k: K)
    requires k in keys
    ensures Sum(w, keys) == At(w, k) + Sum(w, keys - {k})
    decreases |keys|
  {
    var first :| first in keys && Sum(w, keys) == At(w, first) + Sum(w, keys - {first});
    if first != k {
      SumWithout(w, keys - {first}, k);
      SumWithout(w, keys - {k}, first);
      assert keys - {first} - {k} == keys - {k} - {first};
    }
  }

  lemma {:induction false} SumOfUnion<K>(w: map<K, nat>, a: set<K>, b: set<K>)
    requires a !! b
    ensures Sum(w, a + b) == Sum(w, a) + Sum(w, b)
    decreases |a|
  {
    if a == {} {
      assert a + b == b;
    } else {
      var k :| k in a;
      SumWithout(w, a, k);
      SumWithout(w, a + b, k);
      assert a + b - {k} == (a - {k}) + b;
      SumOfUnion(w, a - {k}, b);
    }
  }

  /** Keys without a weight can be left out. */
  lemma {:induction false} SumOfWeighted<K>(w: map<K, nat>, keys: set<K>)
    ensures Sum(w, keys) == Sum(w, keys * w.Keys)
    decreases |keys|
  {
    if keys != {} {
      var k :| k in keys;
      SumWithout(w, keys, k);
      SumOfWeighted(w, keys - {k});
      if k in w {
        SumWithout(w, keys * w.Keys, k);
        assert (keys * w.Keys) - {k} == (keys - {k}) * w.Keys;
      } else {
        assert keys * w.Keys == (keys - {k}) * w.Keys;
      }
    }
  }
}
