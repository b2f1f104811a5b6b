/** Option and Result: the model's stand-ins for Python's None and for the
    exceptions the parser raises. */
module Wrappers {

  datatype Option<+T> = None | Some(value: T)

  datatype Result<+T, +E> = Success(value: T) | Failure(error: E)
}
