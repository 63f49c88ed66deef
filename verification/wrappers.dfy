/** Failure-carrying values shared by the dispatcher model. */
module Wrappers {

  /** An optional value. */
  datatype Option<+T> = None | Some(value: T)

  /** The outcome of one visitor operation: the OUTPUT it returned, or the
      EXCEPTION it threw. */
  datatype Result<+R, +E> = Success(value: R) | Failure(error: E)
}
