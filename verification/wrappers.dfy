/** Failure-carrying values used throughout the model: Go's `nil`-or-value
    results become `Option`, and a `(value, error)` pair where exactly one
    side is meaningful becomes `Result`. */
module Wrappers {

  datatype Option<+T> = None | Some(value: T)

  datatype Result<+R, +E> = Success(value: R) | Failure(error: E)
}
