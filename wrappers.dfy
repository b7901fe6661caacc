/** Option and Result values used for the error returns of the modelled Go code. */
module Wrappers {

  /** A value that may be absent (a nil pointer or nil error in Go). */
  datatype Option<+T> = None | Some(value: T)

  /** A success value or an error value (Go's `(value, error)` pair). */
  datatype Result<+R, +E> = Success(value: R) | Failure(error: E)
}
