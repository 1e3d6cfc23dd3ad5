/** Failure-carrying result types shared by the quote store model. */
module Wrappers {

  /** A value that may be absent. */
  datatype Option<+T> = None | Some(value: T)

  /** Either the value an operation produced, or the reason it refused. */
  datatype Result<+R, +E> = Success(value: R) | Failure(error: E)
}
