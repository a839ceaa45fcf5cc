/** `Option` stands for Go's nil-or-value results, `Result` for a
    value-or-error return. */
module Wrappers {

  datatype Option<+T> = None | Some(value: T)

  datatype Result<+R, +E> = Success(value: R) | Failure(error: E)
}
