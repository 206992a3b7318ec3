/** Optional values and failure-carrying results shared by the capture model. */
module Outcomes {

  datatype Option<+T> = None | Some(value: T)

  /** The outcome of an operation that either yields a value or fails with an error (an exception in the source). */
  datatype Result<+T, +E> = Success(value: T) | Failure(error: E)
}
