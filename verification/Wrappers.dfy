// Failure-carrying results for the checkers, which report a message instead of an answer.
module Wrappers {
  datatype Option<+T> = None | Some(value: T)

  // A checker either accepts with a value or raises with a message.
  datatype Result<+T> = Success(value: T) | Failure(error: string)
}
