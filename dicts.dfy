/**
 * A Python `dict`: a finite mapping that remembers the order in which its
 * keys were first inserted. Assigning to a present key keeps its position.
 */
module Dicts {

  datatype Dict<K(==, !new), V> = Dict(keys: seq<K>, entries: map<K, V>) {

    /** The keys are listed once each and are exactly the mapped ones. */
    ghost predicate Valid() {
      && (forall i, j :: 0 <= i < j < |keys| ==> keys[i] != keys[j])
      && (forall k :: k in entries <==> k in keys)
    }

    /** Python's `d.get(k, default)`. */
    function Get(k: K, default: V): V {
      if k in entries then entries[k] else default
    }
  }

  function Empty<K(==, !new), V>(): (d: Dict<K, V>)
    ensures d.Valid() && d.keys == []
  {
    Dict([], map[])
  }

  /** Python's `d[k] = v`. */
  function Put<K(==, !new), V>(d: Dict<K, V>, k: K, v: V): (r: Dict<K, V>)
    requires d.Valid()
    ensures r.Valid()
    ensures r.entries == d.entries[k := v]
    ensures r.keys == if k in d.entries then d.keys else d.keys + [k]
  {
    Dict(if k in d.entries then d.keys else d.keys + [k], d.entries[k := v])
  }
}
