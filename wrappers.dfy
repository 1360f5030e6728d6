/** The optional value used for neighbour slots and face owners (Rust's `Option`). */
module Wrappers {

  datatype Option<+T> = None | Some(value: T)

  /** The value stored under `k` in `m`, if any. */
  function Get<K, V>(m: map<K, V>, k: K): (r: Option<V>)
    ensures r.Some? <==> k in m
    ensures r.Some? ==> r.value == m[k]
  {
    if k in m then Some(m[k]) else None
  }
}
