/** Option, Result and Outcome: the Go idioms of a nil pointer, a `(value, error)` pair and a bare `error`. */
module Wrappers {

  /** A Go pointer that may be nil. */
  datatype Option<+T> = None | Some(value: T)

  /** A Go `(value, error)` return: the value when the error is nil, the error's text otherwise. */
  datatype Result<+T, +E> = Success(value: T) | Failure(error: E)

  /** A Go function that returns only an `error`: nil, or the error's text. */
  datatype Outcome<+E> = Pass | Fail(error: E)
}
