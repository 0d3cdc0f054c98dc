/** Option and Result values shared by the components of the site. */
module Wrappers {

  /** An optional value: a file that may be absent, a payload field that may be missing. */
  datatype Option<+T> = None | Some(value: T)

  /** The outcome of an operation that can throw: its value, or the error's message. */
  datatype Result<+R, +E> = Success(value: R) | Failure(error: E)
}
