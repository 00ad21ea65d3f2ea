/** Failure-carrying values used where the daemon's code throws or returns undefined. */
module Wrappers {

  datatype Option<+T> = None | Some(value: T)

  /** The outcome of an operation that may throw: the thrown error is kept as a message. */
  datatype Result<+T> = Ok(value: T) | Err(error: string)
}
