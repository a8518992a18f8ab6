/** Option and Result, used where the PHP code returns a sentinel, `null` or halts. */
module Wrappers {

  datatype Option<+T> = None | Some(value: T)

  datatype Result<+R, +E> = Success(value: R) | Failure(error: E)
}
