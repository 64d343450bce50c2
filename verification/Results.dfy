/** Optional values and fallible results. */
module Results {
  datatype Option<+T> = None | Some(value: T)

  /** What a map has for a key. */
  function Get<K, V>(m: map<K, V>, k: K): Option<V> {
    if k in m then Some(m[k]) else None
  }

  datatype Result<+T, +E> = Ok(value: T) | Err(error: E)
}
