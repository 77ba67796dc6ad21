/** Failure-carrying values shared by every module of the model. */
module Wrappers {

  /** A value that may be absent: Go's nil pointer or a missing map key. */
  datatype Option<+T> = None | Some(value: T)

  /** A value or an error: Go's (value, error) result pair. */
  datatype Result<+T, +E> = Success(value: T) | Failure(error: E)

  /** An operation that returns only an error: Go's `error` result, nil on success. */
  datatype Outcome<+E> = Pass | Fail(error: E)
}
