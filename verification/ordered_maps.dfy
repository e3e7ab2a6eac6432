/**
 Insertion-ordered maps keyed by strings. Both a Python `dict` and one
 level of a Tk Treeview behave this way: assigning to a new key appends it
 at the end, assigning to a present key changes its value in place.
 */
module OrderedMaps {
  import opened Wrappers

  /** The keys in insertion order, together with the value of each key. */
  datatype OrderedMap<V> = OrderedMap(keys: seq<string>, values: map<string, V>) {

    /** Every key is listed once, and exactly the listed keys have a value. */
    ghost predicate Valid() {
      && Distinct(keys)
      && (forall k :: k in values <==> k in keys)
    }
  }

  /** No key occurs twice in `ks`. */
  ghost predicate Distinct(ks: seq<string>)
  {
    |ks| == 0 || (ks[0] !in ks[1..] && Distinct(ks[1..]))
  }

  /** Appending a key that is not yet listed keeps the keys distinct. */
  lemma {:induction false} DistinctAppend(ks: seq<string>, k: string)
    requires Distinct(ks) && k !in ks
    ensures Distinct(ks + [k])
    decreases |ks|
  {
    if |ks| > 0 {
      DistinctAppend(ks[1..], k);
      assert (ks + [k])[1..] == ks[1..] + [k];
    }
  }

  /** Ordered maps that keep their representation invariant. */
  type OMap<V> = m: OrderedMap<V> | m.Valid() witness OrderedMap([], map[])

  /** The map with no keys. */
  function Empty<V>(): (r: OMap<V>)
    ensures forall k :: k !in r.values
  {
    OrderedMap([], map[])
  }

  /** Looks `k` up: present exactly when `k` is listed. */
  function Get<V>(m: OMap<V>, k: string): (r: Option<V>)
    ensures r.Some? <==> k in m.keys
    ensures r.Some? ==> k in m.values && r.value == m.values[k]
  {
    if k in m.values then Some(m.values[k]) else None
  }

  /**
   `m[k] = v`: afterwards `k` maps to `v` and every other key keeps its value;
   a present key keeps its position, a new key goes last.
   */
  function Put<V>(m: OMap<V>, k: string, v: V): (r: OMap<V>)
    ensures Get(r, k) == Some(v)
    ensures forall k' :: k' != k ==> Get(r, k') == Get(m, k')
    ensures k in m.keys ==> r.keys == m.keys
    ensures k !in m.keys ==> r.keys == m.keys + [k]
  {
    if k in m.keys then OrderedMap(m.keys, m.values[k := v])
    else
      DistinctAppend(m.keys, k);
      OrderedMap(m.keys + [k], m.values[k := v])
  }

  /** The same keys in the same order, each with a new value. */
  function WithValues<V>(m: OMap<V>, vals: map<string, V>): (r: OMap<V>)
    requires vals.Keys == m.values.Keys
    ensures r.keys == m.keys && r.values == vals
  {
    assert forall k :: k in vals <==> k in m.values;
    OrderedMap(m.keys, vals)
  }
}
