/** Small failure-carrying datatypes shared by the rest of the model. */
module Wrappers {

  /** A value that may be absent: JavaScript's `null` for a nullable state variable. */
  datatype Option<+T> = None | Some(value: T)

  /** The verdict of a check that either passes or fails with a user-visible message.
      Also used for the provider's replies: `Fail(m)` is an error object whose
      `message` is `m` (an error without a message has `m == ""`). */
  datatype Outcome = Pass | Fail(message: string)
}
