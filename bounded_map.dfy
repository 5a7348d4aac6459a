/**
 * A map with a fixed capacity, the behaviour of heapless's `FnvIndexMap` that the evaluator's
 * environment and the primitive registry rely on: inserting an existing key replaces its value,
 * inserting a new key succeeds only while there is room, and removing reports whether the key
 * was there.
 */
module BoundedMap {
  import opened Wrappers

  /** `insert`: `None` is the `Err` that the callers' `unwrap` or `panic!` turn into a panic. */
  function Insert<V>(m: map<string, V>, capacity: nat, key: string, value: V): (r: Option<map<string, V>>)
    ensures r.Some? <==> key in m || |m| < capacity
  {
    if key in m || |m| < capacity then Some(m[key := value]) else None
  }

  /** `remove`: `None` when the key is absent. */
  function Remove<V>(m: map<string, V>, key: string): (r: Option<map<string, V>>)
    ensures r.Some? <==> key in m
  {
    if key in m then Some(m - {key}) else None
  }

  /** `get`. */
  function Get<V>(m: map<string, V>, key: string): (r: Option<V>)
    ensures r.Some? <==> key in m
  {
    if key in m then Some(m[key]) else None
  }

  /** After a successful insert the key maps to the new value and every other key is untouched. */
  lemma InsertThenGet<V>(m: map<string, V>, capacity: nat, key: string, value: V, other: string)
    requires Insert(m, capacity, key, value).Some?
    ensures Get(Insert(m, capacity, key, value).value, key) == Some(value)
    ensures other != key ==> Get(Insert(m, capacity, key, value).value, other) == Get(m, other)
  {
  }

  /** Re-inserting a key that is present never fails, whatever the fill level. */
  lemma OverwriteNeverFails<V>(m: map<string, V>, capacity: nat, key: string, value: V)
    requires key in m
    ensures Insert(m, capacity, key, value) == Some(m[key := value])
  {
  }

  /** A map that respects its capacity keeps respecting it, and a full map rejects new keys. */
  lemma InsertKeepsBound<V>(m: map<string, V>, capacity: nat, key: string, value: V)
    requires |m| <= capacity
    ensures Insert(m, capacity, key, value).Some? ==> |Insert(m, capacity, key, value).value| <= capacity
    ensures key !in m && |m| == capacity ==> Insert(m, capacity, key, value) == None
  {
  }

  /** Removing a key that an insert added gives back the original map. */
  lemma InsertThenRemove<V>(m: map<string, V>, capacity: nat, key: string, value: V)
    requires key !in m && Insert(m, capacity, key, value).Some?
    ensures Remove(Insert(m, capacity, key, value).value, key) == Some(m)
  {
    assert Insert(m, capacity, key, value).value - {key} == m;
  }
}
