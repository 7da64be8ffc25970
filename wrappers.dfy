/** Failure-carrying result types used throughout the model. */
module Wrappers {

  /** A possibly absent value: the `Option` a lookup returns. */
  datatype Option<+T> = None | Some(value: T)

  /** The outcome of a store operation that returns no value
      (`EmptyResult` in the server): success, or an error message. */
  datatype Outcome = Pass | Fail(error: string)
}
