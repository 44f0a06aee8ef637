/** Small failure-compatible wrappers shared by the modules of this model. */
module Wrappers {

  /** A value that may be absent (`null` in the source). */
  datatype Option<+T> = None | Some(value: T)

  /** The outcome of an operation that either completes or throws an error value. */
  datatype Outcome<+E> = Pass | Fail(error: E)
}
