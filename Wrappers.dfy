/** Optional values and success/failure results. */
module Wrappers {

  /** A value that may be missing; a key absent from the configuration store
      reads as `None` (JavaScript `undefined`). */
  datatype Option<+T> = None | Some(value: T)

  /** The outcome of a promise: resolved with a value or rejected with an error. */
  datatype Result<+R, +E> = Success(value: R) | Failure(error: E)
}
