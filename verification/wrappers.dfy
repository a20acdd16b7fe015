/** Option and Result, used for Python's `None` and for raised exceptions. */
module Wrappers {

  /** A value that may be Python's `None`. */
  datatype Option<+T> = None | Some(value: T)

  /** The outcome of an operation that either returns a value or raises an
      exception carrying a message. */
  datatype Result<+T> = Ok(value: T) | Err(message: string)
}
