/** Failure-carrying datatypes shared by the coordinator and agent models. */
module Wrappers {

  /** A value that may be absent (a missing JSON field, an unset lookup). */
  datatype Option<+T> = None | Some(value: T)

  /** The outcome of an operation that either returns a value or raises. */
  datatype Result<+T, +E> = Ok(value: T) | Err(error: E)
}
