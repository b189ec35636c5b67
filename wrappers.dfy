/** Option and Result values used for Go's nil results and (value, error) pairs. */
module Wrappers {

  datatype Option<+T> = None | Some(value: T)

  /** A Go `(value, err)` pair: `Success(v)` when `err == nil`, `Failure(e)` otherwise. */
  datatype Result<+R, +E> = Success(value: R) | Failure(error: E)
}
