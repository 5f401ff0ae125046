/** The failures the ledger services raise, as values instead of exceptions. */
module Errors {

  /** The exception classes of the root package, plus Kotlin's own
      IllegalArgumentException (raised by `drop`/`take` on a negative count). */
  datatype Error =
    | BadRequest
    | IdNotFound
    | DeleteNotAllowed
    | CreateNotAllowed
    | IllegalArgument

  /** What a service call that returns a value produces: the value, or the exception. */
  datatype Result<T> = Ok(value: T) | Err(error: Error)

  /** What a service call that returns `Unit` produces. */
  datatype Outcome = Pass | Fail(error: Error)

  /** A Kotlin nullable value. */
  datatype Option<T> = None | Some(value: T)
}
