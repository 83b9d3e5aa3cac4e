/** Option and Result: absent values and failure paths of the source, made explicit. */
module Wrappers {

  /** A value that may be missing: a JavaScript `undefined`/`null` or an optional field. */
  datatype Option<+T> = None | Some(value: T)

  /** The outcome of an operation that may throw: its value, or the message it fails with. */
  datatype Result<+R, +E> = Success(value: R) | Failure(error: E)
}
