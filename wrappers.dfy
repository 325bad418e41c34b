/** Option and Result, the two failure-carrying datatypes the model uses for
    the Python exceptions (KeyError, IndexError, TypeError) of the source. */
module Wrappers {

  datatype Option<+T> = None | Some(value: T)

  datatype Result<+T, +E> = Success(value: T) | Failure(error: E)
}
