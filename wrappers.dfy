// Failure-carrying return values: Go's (value, error) pairs become Option or
// Result values with an explicit error case.
module Wrappers {

  datatype Option<+T> = None | Some(value: T)

  datatype Result<+T, +E> = Success(value: T) | Failure(error: E)
}
