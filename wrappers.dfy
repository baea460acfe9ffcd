/** Optional values and results of operations that can fail. */
module Wrappers {

  datatype Option<T> = None | Some(value: T)

  /** The outcome of a call that either succeeds or throws; `error` is the
      opaque text of the thrown error (`${error}`). */
  datatype Result<T> = Ok(value: T) | Err(error: string)
}
