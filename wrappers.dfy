/** Option, Result and Outcome, shared by the other modules. */
module Wrappers {

  /** A value that may be `undefined`. */
  datatype Option<+T> = None | Some(value: T)

  /** A computed value, or the error a handler or selector throws instead. */
  datatype Result<+R, +E> = Success(value: R) | Failure(error: E)

  /** The completion of a handler that returns nothing: it finished, or it threw. */
  datatype Outcome<+E> = Pass | Fail(error: E)
}
