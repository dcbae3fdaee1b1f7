/** Failure-carrying results used where the application raises an exception. */
module Wrappers {

  /** A value that may be missing: a cancelled dialog, a failed parse. */
  datatype Option<+T> = None | Some(value: T)

  /** Either a value or the error the application would raise instead. */
  datatype Result<+R, +E> = Success(value: R) | Failure(error: E)
}
