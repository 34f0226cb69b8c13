/** Small failure-carrying datatypes shared by the modules of the quiz model. */
module Wrappers {

  /** A value that may be absent: JavaScript's `T | null`. */
  datatype Option<+T> = None | Some(value: T)

  /** The settled value of a promise: resolved with a value or rejected with an error message. */
  datatype Result<+T> = Success(value: T) | Failure(message: string)

  /** The settled value of a promise whose resolved value is not used. */
  datatype Outcome = Pass | Fail(message: string)
}
