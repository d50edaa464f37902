/** Option and Result, used for input that runs out and for remote lookups that fail. */
module Wrappers {

  datatype Option<T> = None | Some(value: T)

  datatype Result<T, E> = Success(value: T) | Failure(error: E)
}
