/** Python's `dict`: a finite map that remembers the order in which keys were first
    inserted. Assigning to a key that is already present keeps its position. */
module Dicts {
  import opened Seqs

  datatype PyDict<K, V> = PyDict(keys: seq<K>, items: map<K, V>) {
    /** The insertion order lists every key exactly once. */
    predicate Wf() {
      && NoDup(keys)
      && (forall k :: k in items ==> k in keys)
      && (forall i :: 0 <= i < |keys| ==> keys[i] in items)
    }
  }

  type Dict<K, V> = d: PyDict<K, V> | d.Wf() witness PyDict([], map[])

  function Empty<K, V>(): (d: Dict<K, V>)
    ensures d.keys == [] && d.items == map[]
  {
    PyDict([], map[])
  }

  /** `d[k] = v`: a new key goes to the end of the order, an existing one stays put. */
  function Put<K, V>(d: Dict<K, V>, k: K, v: V): (r: Dict<K, V>)
    ensures r.items == d.items[k := v]
    ensures k in d.items ==> r.keys == d.keys
    ensures k !in d.items ==> r.keys == d.keys + [k]
  {
    if k in d.items then PyDict(d.keys, d.items[k := v]) else PyDict(d.keys + [k], d.items[k := v])
  }

  /** `d.get(k, default)`. */
  function Get<K, V>(d: Dict<K, V>, k: K, default: V): V {
    if k in d.items then d.items[k] else default
  }

  /** `list(d.values())`, in key order. */
  function Values<K, V>(d: Dict<K, V>): (r: seq<V>)
    ensures |r| == |d.keys|
    ensures forall i :: 0 <= i < |r| ==> r[i] == d.items[d.keys[i]]
  {
    seq(|d.keys|, i requires 0 <= i < |d.keys| => d.items[d.keys[i]])
  }

  /** A value is listed by `values()` exactly when some key maps to it. */
  lemma ValuesMembership<K, V>(d: Dict<K, V>, v: V)
    ensures v in Values(d) <==> exists k :: k in d.items && d.items[k] == v
  {
    if v in Values(d) {
      var i :| 0 <= i < |d.keys| && Values(d)[i] == v;
      assert d.keys[i] in d.items;
    }
    if exists k :: k in d.items && d.items[k] == v {
      var k :| k in d.items && d.items[k] == v;
      var i :| 0 <= i < |d.keys| && d.keys[i] == k;
      assert Values(d)[i] == v;
    }
  }

  /** Assigning to a present key replaces its value in place in `values()`. */
  lemma ValuesPutPresent<K, V>(d: Dict<K, V>, k: K, v: V, j: nat)
    requires j < |d.keys| && d.keys[j] == k
    ensures Values(Put(d, k, v)) == Values(d)[j := v]
  {
    var r := Put(d, k, v);
    forall i | 0 <= i < |d.keys| ensures Values(r)[i] == Values(d)[j := v][i] {
      if i != j {
        assert d.keys[i] != k;
      }
    }
  }

  /** Assigning to a new key appends its value to `values()`. */
  lemma ValuesPutAbsent<K, V>(d: Dict<K, V>, k: K, v: V)
    requires k !in d.items
    ensures Values(Put(d, k, v)) == Values(d) + [v]
  {
    var r := Put(d, k, v);
    forall i | 0 <= i < |d.keys| ensures Values(r)[i] == Values(d)[i] {
      assert d.keys[i] != k;
    }
  }
}
