/**
 * A JavaScript object used as a dictionary with string keys (`filesMap`,
 * `fileURLs`): its keys in iteration order and the value under each key.
 * `for (k in obj)` visits the keys in the order they were first inserted,
 * and assigning to an existing key replaces its value without moving it.
 */
module Table {
  import opened Wrappers
  import opened Lists

  datatype Table<V> = Table(keys: seq<string>, values: map<string, V>)

  /** The empty object `{}`. */
  function Empty<V>(): Table<V> {
    Table([], map[])
  }

  /** The iteration order lists each key of the object exactly once. */
  ghost predicate Valid<V>(t: Table<V>) {
    NoDup(t.keys) && forall k :: k in t.keys <==> k in t.values
  }

  /** `obj[k]`: the value stored under `k`, or `None` when `k` is not a key. */
  function Lookup<V>(t: Table<V>, k: string): Option<V> {
    if k in t.values then Some(t.values[k]) else None
  }

  /** `obj[k] = v`: replaces the value of an existing key in place, or appends a new key. */
  function Put<V>(t: Table<V>, k: string, v: V): (r: Table<V>)
    ensures Valid(t) ==> Valid(r)
    ensures r.keys == if k in t.values then t.keys else t.keys + [k]
    ensures Lookup(r, k) == Some(v)
    ensures forall k' :: k' != k ==> Lookup(r, k') == Lookup(t, k')
  {
    var r := Table(if k in t.values then t.keys else t.keys + [k], t.values[k := v]);
    assert Valid(t) && k !in t.values ==> NoDup(r.keys) by {
      if Valid(t) && k !in t.values {
        assert forall i :: 0 <= i < |t.keys| ==> r.keys[i] == t.keys[i] != k;
      }
    }
    r
  }
}
