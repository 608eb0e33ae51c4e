/** Python's insertion-ordered `dict`: a key order plus a map. Assigning to a
    present key keeps its position; a new key goes to the end. */
module Dicts {

  datatype Dict<K(!new), V> = Dict(keys: seq<K>, m: map<K, V>)
  {
    ghost predicate Valid() {
      (forall i, j :: 0 <= i < j < |keys| ==> keys[i] != keys[j]) &&
      (forall k :: k in m <==> k in keys)
    }

    /** `d[k] = v` */
    function Put(k: K, v: V): (d: Dict<K, V>)
      requires Valid()
      ensures d.Valid()
      ensures d.m == m[k := v]
      ensures k in m ==> d.keys == keys
      ensures k !in m ==> d.keys == keys + [k]
    {
      if k in m then Dict(keys, m[k := v]) else Dict(keys + [k], m[k := v])
    }

    /** `list(d.values())` */
    function Values(): (vs: seq<V>)
      requires Valid()
      ensures |vs| == |keys|
      ensures forall i :: 0 <= i < |keys| ==> vs[i] == m[keys[i]]
    {
      ValuesOf(keys, m)
    }
  }

  function Empty<K(!new), V>(): (d: Dict<K, V>)
    ensures d.Valid() && d.keys == [] && d.m == map[]
  {
    Dict([], map[])
  }

  function ValuesOf<K, V>(ks: seq<K>, m: map<K, V>): (vs: seq<V>)
    requires forall k :: k in ks ==> k in m
    ensures |vs| == |ks|
    ensures forall i :: 0 <= i < |ks| ==> vs[i] == m[ks[i]]
  {
    if ks == [] then [] else [m[ks[0]]] + ValuesOf(ks[1..], m)
  }
}
