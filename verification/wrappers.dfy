/** Failure-carrying result types shared by the keychain modules. */
module Wrappers {

  /** A value that may be absent: the source's `null`. */
  datatype Option<+T> = None | Some(value: T)

  /** Either a value or the error a JavaScript operation would have thrown. */
  datatype Result<+T, +E> = Success(value: T) | Failure(error: E)
}
