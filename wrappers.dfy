/** Option and Result, the two shapes every Go `(value, error)` or nil-able
    pointer of the library takes in this model. */
module Wrappers {

  datatype Option<+T> = None | Some(value: T)

  /** The outcome of an operation that yields either a value or an error;
      never both, never neither. */
  datatype Result<+T, +E> = Success(value: T) | Failure(error: E)
}
