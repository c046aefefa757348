/** Sums over the keys of a map, in any order. */
module KeySums {

  ghost function Pick<K>(keys: set<K>): (k: K)
    requires keys != {}
    ensures k in keys
  {
    var k :| k in keys; k
  }

  ghost function SumKeys<K>(keys: set<K>, f: K -> real): real
  {
    if keys == {} then 0.0 else f(Pick(keys)) + SumKeys(keys - {Pick(keys)}, f)
  }

  lemma {:induction false} SumKeysZero<K>(keys: set<K>, f: K -> real)
    requires forall k :: k in keys ==> f(k) == 0.0
    ensures SumKeys(keys, f) == 0.0
  {
    if keys != {} { SumKeysZero(keys - {Pick(keys)}, f); }
  }

  lemma {:induction false} SumKeysSingle<K>(keys: set<K>, f: K -> real, k: K)
    requires k in keys && forall o :: o in keys && o != k ==> f(o) == 0.0
    ensures SumKeys(keys, f) == f(k)
  {
    var c := Pick(keys);
    if c == k { SumKeysZero(keys - {c}, f); } else { SumKeysSingle(keys - {c}, f, k); }
  }

  lemma {:induction false} SumKeysEqual<K>(keys: set<K>, f: K -> real, g: K -> real)
    requires forall k :: k in keys ==> f(k) == g(k)
    ensures SumKeys(keys, f) == SumKeys(keys, g)
  {
    if keys != {} { SumKeysEqual(keys - {Pick(keys)}, f, g); }
  }

  method AnyKey<K(==)>(keys: set<K>) returns (k: K)
    requires keys != {}
    ensures k in keys
  {
    k :| k in keys;
  }
}
