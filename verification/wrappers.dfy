/** Nullable values. A Java reference that may be `null` is modelled as an
    `Option`: `None` is `null`, `Some(v)` is a non-null reference to `v`. */
module Wrappers {

  datatype Option<+T> = None | Some(value: T)

  /** Looks a key up in a map, `None` when it is absent. */
  function Get<K, V>(m: map<K, V>, k: K): (r: Option<V>)
    ensures r.Some? <==> k in m
    ensures r.Some? ==> r.value == m[k]
  {
    if k in m then Some(m[k]) else None
  }
}
