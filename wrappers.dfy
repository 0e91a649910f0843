/** Small value wrappers shared by the rest of the model. */
module Wrappers {

  /** Rust's `Option<T>`. */
  datatype Option<T> = None | Some(value: T)

  /** The result of evaluating a Rust expression that may panic: either it
      finishes with a value, or it panics with the given message. */
  datatype Outcome<T> = Done(value: T) | Panicked(message: string)

  /** `HashMap::get(&k).cloned()`: the value stored under `k`, if any. */
  function Get<K, V>(m: map<K, V>, k: K): (r: Option<V>)
    ensures r.Some? <==> k in m
    ensures r.Some? ==> r.value == m[k]
  {
    if k in m then Some(m[k]) else None
  }
}
