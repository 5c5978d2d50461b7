/** Failure-carrying results shared by the modules of the model. */
module Wrappers {

  /** A value that may be absent: Python's `X | None`. */
  datatype Option<T> = None | Some(value: T)

  /** The outcome of an operation that either completes or raises `error`. */
  datatype Outcome<E> = Pass | Fail(error: E)

  /** A computed value, or the error that stopped the computation. */
  datatype Result<T, E> = Success(value: T) | Failure(error: E)
}
