/** Failure-carrying results shared by every module of the model. The source
    signals its fatal conditions with exceptions; here they are values. */
module Wrappers {

  datatype Option<+T> = None | Some(value: T)

  /** The outcome of an operation that either completes or raises the
      exception whose message is kept in `Fail`. */
  datatype Outcome = Pass | Fail(message: string) {
    predicate IsFailure() { Fail? }
  }

  /** A value or the message of the exception raised instead. */
  datatype Result<+T> = Ok(value: T) | Err(message: string)
}
