/** Failure-carrying wrappers shared by the other modules. */
module Wrappers {

  /** A value that may be absent: Go's nil interface, an unset group, a NULL cell. */
  datatype Option<+T> = None | Some(value: T)

  /** The result of an operation that returns a value or a Go `error`. */
  datatype Result<+R, +E> = Success(value: R) | Failure(error: E)
}
