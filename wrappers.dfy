/** Option and Result values: the model's stand-ins for Python's `None` and for
    the exceptions (`KeyError`, `NameError`, `struct.error`) that the reader raises. */
module Wrappers {

  datatype Option<+T> = None | Some(value: T)

  datatype Result<+R, +E> = Success(value: R) | Failure(error: E)
}
