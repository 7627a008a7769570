/** Small failure-carrying datatypes shared by the other modules. */
module Wrappers {

  /** A value that may be missing (a NaN cell of an optional column). */
  datatype Option<T> = None | Some(value: T)

  /** Either a computed value or the error that aborts the computation. */
  datatype Result<T, E> = Success(value: T) | Failure(error: E)
}
