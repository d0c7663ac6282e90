/** Optional values and results with an error, as used by the movie store model. */
module Wrappers {
  /** A value that may be absent: a missing dictionary key or a JSON/GraphQL null. */
  datatype Option<T> = None | Some(value: T)

  /** The outcome of a resolver that may raise. */
  datatype Result<T, E> = Ok(value: T) | Err(error: E)
}
