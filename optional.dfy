/** Absence as a value: Python's `Optional[T]` and `dict.get`. */
module Optional {

  datatype Option<+T> = None | Some(value: T)

  /** `m.get(k)`: the value stored under `k`, or None when `k` is not a key. */
  function Get<K, V>(m: map<K, V>, k: K): (r: Option<V>)
    ensures r.Some? <==> k in m
    ensures r.Some? ==> r.value == m[k]
  {
    if k in m then Some(m[k]) else None
  }
}
