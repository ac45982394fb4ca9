/** Small value wrappers shared by the model. */
module Wrappers {

  /** A value that may be absent (`undefined` in the source). */
  datatype Option<+T> = None | Some(value: T)

  /** How a promise that yields a value settles: resolved with the value, or rejected with an error message. */
  datatype Settled<+T> = Resolved(value: T) | Rejected(message: string)

  /** How a promise that yields nothing settles. */
  datatype Completion = Completed | Failed(message: string)

  /** A synchronous call that returns a value or throws an error with a message. */
  datatype Result<+T> = Success(value: T) | Failure(message: string)
}
