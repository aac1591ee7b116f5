/** Failure-compatible wrappers shared by the other modules. */
module Wrappers {

  /** An optional value: an absent attribute, a lookup that found nothing. */
  datatype Option<+T> = None | Some(value: T)

  /** The outcome of an operation that can raise: the value it returns, or the error it raises. */
  datatype Result<+R, +E> = Success(value: R) | Failure(error: E)
}
