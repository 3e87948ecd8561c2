/** Option and Result: JavaScript's `undefined`/`null` answers and thrown errors as values. */
module Wrappers {

  /** `None` stands for the `undefined` or `null` a lookup answers when nothing matches. */
  datatype Option<+T> = None | Some(value: T)

  /** `Failure` stands for an `Error` the operation throws before changing anything. */
  datatype Result<+R, +E> = Success(value: R) | Failure(error: E)

  /** A thrown JavaScript `Error`, by its message. */
  datatype Error = Error(message: string)
}
