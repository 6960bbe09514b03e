/** Small failure-carrying datatypes shared by the other modules. */
module Wrappers {

  /** A value that may be missing: a key absent from the store, a parse that failed. */
  datatype Option<+T> = None | Some(value: T)

  /** How a call ends when an exception may escape it to the caller. */
  datatype Outcome<+T> = Returned(value: T) | Threw(message: string)
}
