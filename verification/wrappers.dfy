/** Option and Result: the model's stand-ins for Python's `None` and for
    operations that either return a value or raise. */
module Wrappers {

  datatype Option<+T> = None | Some(value: T)

  datatype Result<+R, +E> = Success(value: R) | Failure(error: E)
}
