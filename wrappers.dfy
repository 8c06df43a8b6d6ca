/** Failure-compatible wrappers for the nullable results and thrown exceptions of the source. */
module Wrappers {

  /** A value or nothing: the source's `null` results. */
  datatype Option<+T> = None | Some(value: T)

  /** What a call that may throw ends in: a returned value, or an exception with its message. */
  datatype Outcome<+T> = Returned(value: T) | Threw(message: string)
}
