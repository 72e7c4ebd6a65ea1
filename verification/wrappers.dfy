/** Optional values and error-carrying results, shared by every module of the model. */
module Wrappers {

  /** A value that may be absent: Python's `None`, a missing JSON field, JavaScript's `undefined`. */
  datatype Option<+T> = None | Some(value: T)

  /** The outcome of an operation that either produces a value or fails with an error. */
  datatype Result<+T, +E> = Ok(value: T) | Err(error: E)

  /** An HTTP error raised by a route handler: the status code and the `detail` text. */
  datatype HttpError = HttpError(status: nat, detail: string)
}
