/** Optional values, results of operations that may raise, and lookups in maps. */
module Wrappers {

  datatype Option<+T> = None | Some(value: T)

  /** A call either returns a value or raises an error. */
  datatype Result<+T, +E> = Ok(value: T) | Err(error: E)

  /** `m.get(k)`. */
  function At<V>(m: map<string, V>, k: string): Option<V> {
    if k in m then Some(m[k]) else None
  }

  lemma AtExtensional<V>(a: map<string, V>, b: map<string, V>)
    requires forall k :: At(a, k) == At(b, k)
    ensures a == b
  {
    forall k ensures (k in a <==> k in b) && (k in a ==> a[k] == b[k]) {
      assert At(a, k) == At(b, k);
    }
  }
}
