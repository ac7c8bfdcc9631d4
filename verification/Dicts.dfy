/** A dictionary that remembers the order in which its keys were first inserted, as Python's does. */
module Dicts {

  datatype RawDict<K(==, !new), V> = RawDict(keys: seq<K>, vals: map<K, V>) {
    ghost predicate Valid() {
      && (forall i, j :: 0 <= i < j < |keys| ==> keys[i] != keys[j])
      && (forall k :: k in keys <==> k in vals)
    }
  }

  type Dict<K(==, !new), V> = d: RawDict<K, V> | d.Valid() witness RawDict([], map[])

  function Empty<K(==, !new), V>(): Dict<K, V> {
    RawDict([], map[])
  }

  /** Assignment to a key: an old key keeps its place, a new one goes to the end. */
  function Put<K(==, !new), V>(d: Dict<K, V>, k: K, v: V): (r: Dict<K, V>)
    ensures r.vals == d.vals[k := v]
    ensures r.keys == if k in d.vals then d.keys else d.keys + [k]
  {
    RawDict(if k in d.vals then d.keys else d.keys + [k], d.vals[k := v])
  }
}
