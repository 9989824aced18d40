/** Failure-carrying result types shared by the other modules. */
module Wrappers {

  datatype Option<+T> = None | Some(value: T)

  /** A value or the error a Python operation would raise instead. */
  datatype Result<+T, +E> = Success(value: T) | Failure(error: E)

  /** Python's KeyError, raised by a dictionary lookup of a missing key. */
  datatype KeyError = KeyError(key: string)
}
