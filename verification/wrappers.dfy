/** An optional value, and a value-or-error-message result. */
module Wrappers {

  datatype Option<+T> = None | Some(value: T)

  /** The outcome of a call that can throw: a value, or the thrown error's message. */
  datatype Result<+R> = Success(value: R) | Failure(message: string)

  /** The outcome of a call that returns nothing but can throw. */
  datatype Outcome = Pass | Fail(message: string)
}
