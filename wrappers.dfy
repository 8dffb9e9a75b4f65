/** Optional values: JavaScript's `null` / `undefined` / missing key. */
module Wrappers {

  datatype Option<+T> = None | Some(value: T)

  /** Looks a key up in a map: the JavaScript `data[key]`, which is `undefined` when absent. */
  function Get<K, V>(m: map<K, V>, k: K): (r: Option<V>)
    ensures r.Some? <==> k in m
    ensures r.Some? ==> r.value == m[k]
  {
    if k in m then Some(m[k]) else None
  }
}
