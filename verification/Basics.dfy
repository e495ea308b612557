/** Datatypes shared by every component of the model. */
module Basics {

  datatype Option<+T> = None | Some(value: T)

  /** The outcome of an operation that the source reports through an error value. */
  datatype Result<+T> = Ok(value: T) | Err(reason: string)

  function Lookup<K, V>(m: map<K, V>, k: K): Option<V> {
    if k in m then Some(m[k]) else None
  }
}
