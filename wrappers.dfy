/** Option and Result, shared by the queue model and the pool-list handler. */
module Wrappers {

  /** A value that may be absent; `None` also stands for Go's nil slice. */
  datatype Option<+T> = None | Some(value: T)

  /** The outcome of a call that returns a value or an error. */
  datatype Result<+T, +E> = Success(value: T) | Failure(error: E)
}
