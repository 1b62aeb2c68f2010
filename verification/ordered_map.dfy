/**
 * An insertion-ordered dictionary with string keys, the behaviour shared by a
 * JavaScript `Map<string, V>` and the own properties of a plain object: each
 * key appears once, keys are enumerated in the order they were first inserted,
 * and overwriting the value of an existing key leaves that key where it was.
 */
module OrderedMaps {
  import opened Wrappers

  datatype OrderedMap<V> = OrderedMap(keys: seq<string>, entries: map<string, V>)
  {
    /** Keys are listed without repetition, and exactly the keys that have an entry are listed. */
    ghost predicate Valid() {
      && (forall i, j :: 0 <= i < j < |keys| ==> keys[i] != keys[j])
      && entries.Keys == (set k | k in keys)
    }
  }

  /** `new Map()` and `{}`. */
  function Empty<V>(): (m: OrderedMap<V>)
    ensures m.Valid()
    ensures |m.keys| == 0 && m.entries == map[]
  {
    OrderedMap([], map[])
  }

  /** `m.get(k)`: `undefined` when the key is absent. */
  function Get<V>(m: OrderedMap<V>, k: string): (r: Option<V>)
    ensures r.Some? <==> k in m.entries
    ensures r.Some? ==> r.value == m.entries[k]
  {
    if k in m.entries then Some(m.entries[k]) else None
  }

  /**
   * `m.set(k, v)`: a new key goes to the end of the enumeration order, an
   * existing key keeps its position and only its value changes.
   */
  function Set<V>(m: OrderedMap<V>, k: string, v: V): (r: OrderedMap<V>)
    ensures m.Valid() ==> r.Valid()
    ensures r.entries == m.entries[k := v]
    ensures k in m.entries ==> r.keys == m.keys
    ensures k !in m.entries ==> r.keys == m.keys + [k]
  {
    if k in m.entries then OrderedMap(m.keys, m.entries[k := v])
    else OrderedMap(m.keys + [k], m.entries[k := v])
  }

  /** `Array.from(m.values())`: the values in key enumeration order. */
  function Values<V>(m: OrderedMap<V>): (vs: seq<V>)
    requires m.Valid()
    ensures |vs| == |m.keys|
    ensures forall i :: 0 <= i < |m.keys| ==> vs[i] == m.entries[m.keys[i]]
  {
    seq(|m.keys|, i requires 0 <= i < |m.keys| => m.entries[m.keys[i]])
  }
}
