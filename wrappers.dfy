/** Optional values and results with a fixed error side: the model's rendering of Go's
  * nil references and of its `(value, error)` return pairs. */
module Wrappers {

  datatype Option<T> = None | Some(value: T)

  datatype Result<T, E> = Ok(value: T) | Err(error: E)
}
