/** Finite sums over sets, used for byte accounting. */
module Sums {

  ghost function Sum<K>(keys: set<K>, weight: K -> int): int
  {
    if keys == {} then 0
    else
      var k :| k in keys;
      weight(k) + Sum(keys - {k}, weight)
  }

  lemma {:induction false} SumRemove<K>(keys: set<K>, weight: K -> int, k: K)
    requires k in keys
    ensures Sum(keys, weight) == weight(k) + Sum(keys - {k}, weight)
    decreases keys
  {
    var picked :| picked in keys && Sum(keys, weight) == weight(picked) + Sum(keys - {picked}, weight);
    if picked != k {
      SumRemove(keys - {picked}, weight, k);
      SumRemove(keys - {k}, weight, picked);
      assert keys - {picked} - {k} == keys - {k} - {picked};
    }
  }

  lemma {:induction false} SumCongruence<K>(keys: set<K>, weight: K -> int, weight': K -> int)
    requires forall k :: k in keys ==> weight(k) == weight'(k)
    ensures Sum(keys, weight) == Sum(keys, weight')
    decreases keys
  {
    if keys != {} {
      var k :| k in keys;
      SumRemove(keys, weight, k);
      SumRemove(keys, weight', k);
      SumCongruence(keys - {k}, weight, weight');
    }
  }

  lemma {:induction false} SumSplit<K>(keys: set<K>, part: set<K>, weight: K -> int)
    requires part <= keys
    ensures Sum(keys, weight) == Sum(part, weight) + Sum(keys - part, weight)
    decreases part
  {
    if part == {} {
      assert keys - part == keys;
    } else {
      var k :| k in part;
      SumRemove(keys, weight, k);
      SumRemove(part, weight, k);
      SumSplit(keys - {k}, part - {k}, weight);
      assert (keys - {k}) - (part - {k}) == keys - part;
    }
  }

  lemma {:induction false} SumNonNegative<K>(keys: set<K>, weight: K -> int)
    requires forall k :: k in keys ==> weight(k) >= 0
    ensures Sum(keys, weight) >= 0
    decreases keys
  {
    if keys != {} {
      var k :| k in keys;
      SumRemove(keys, weight, k);
      SumNonNegative(keys - {k}, weight);
    }
  }
}
