/** Option and Result: the two ways a Go function here reports "no value" (a
    `found bool` second result, or a non-nil `error`). */
module Wrappers {

  datatype Option<+T> = None | Some(value: T)

  datatype Result<+T, +E> = Success(value: T) | Failure(error: E)
}
