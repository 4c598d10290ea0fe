/** Failure-compatible wrappers used throughout the model: a Python call that
    may raise is modelled as a function returning a Result. */
module Wrappers {

  datatype Option<+T> = None | Some(value: T)

  datatype Result<+R, +E> = Success(value: R) | Failure(error: E)
}
