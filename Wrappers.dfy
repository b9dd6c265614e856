/** Stand-ins for Java's `null` results and thrown exceptions. */
module Wrappers {

  /** A value that may be absent: Java's nullable reference. */
  datatype Option<+T> = None | Some(value: T)

  /** Either a value or the error a Java method would have thrown. */
  datatype Result<+T, +E> = Success(value: T) | Failure(error: E)

  /** `Map.get`: the value stored under `k`, or `None` (Java's null) when absent. */
  function Get<K, V>(m: map<K, V>, k: K): (r: Option<V>)
    ensures r.Some? <==> k in m
    ensures r.Some? ==> r.value == m[k]
  {
    if k in m then Some(m[k]) else None
  }
}
