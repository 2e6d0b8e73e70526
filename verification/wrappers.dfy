/** The two wrappers of the model: an optional value, for Python's `None`
    defaults, and the outcome of an operation that can raise. */
module Wrappers {

  datatype Option<+T> = None | Some(value: T)

  datatype Result<+T, +E> = Success(value: T) | Failure(error: E)
}
