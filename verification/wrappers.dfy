/** Option and Result, shared by every module of the model. */
module Wrappers {

  /** A value that may be absent; `None` stands for a Java `null` reference. */
  datatype Option<+T> = None | Some(value: T)

  /** The outcome of a call that may throw: `Failure` carries the exception message. */
  datatype Result<+R, +E> = Success(value: R) | Failure(error: E)
}
