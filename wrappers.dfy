/** Small failure-carrying datatypes shared by the other modules. */
module Wrappers {

  /** A value that may be absent (Python's `Optional`, `None` for missing). */
  datatype Option<+T> = None | Some(value: T)

  /** The outcome of an operation that may raise: a value or an error message. */
  datatype Result<+T> = Ok(value: T) | Err(message: string)
}
