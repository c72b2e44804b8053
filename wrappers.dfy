/** Nullable column values and the outcome of a step that can raise. */
module Wrappers {

  /** A nullable column: None is SQL NULL. */
  datatype Option<+T> = None | Some(value: T)

  /** The outcome of a computation that either returns a value or raises `error`. */
  datatype Result<+T, +E> = Success(value: T) | Failure(error: E)
}
