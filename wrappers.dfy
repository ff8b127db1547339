/** Option and Result, used for the source's nullable returns and thrown exceptions. */
module Wrappers {

  /** A nullable reference: `None` stands for C#'s `null`. */
  datatype Option<+T> = None | Some(value: T)

  /** The outcome of a call that may throw: `Failure` carries the exception. */
  datatype Result<+R, +E> = Success(value: R) | Failure(error: E)
}
