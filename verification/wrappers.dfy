/** An optional value, used wherever the source returns `None`/`null`/`undefined`. */
module Wrappers {
  datatype Option<T> = None | Some(value: T)

  /** The outcome of an operation that may raise: its value, or the error it raises. */
  datatype Result<T, E> = Success(value: T) | Failure(error: E)
}
