/** The two result types the models share: Go's "value, ok" and "value, error" pairs. */
module Prelude {
  datatype Option<+T> = None | Some(value: T)

  datatype Result<+T, +E> = Success(value: T) | Failure(error: E)
}
