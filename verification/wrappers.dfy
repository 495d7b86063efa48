/** Failure-compatible wrappers shared by the whole model: an optional value
    (a JavaScript field that may be undefined or null) and the outcome of a
    computation that may throw. */
module Wrappers {

  datatype Option<+T> = None | Some(value: T)

  datatype Result<+R, +E> = Success(value: R) | Failure(error: E)
}
