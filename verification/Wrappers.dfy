/**
 * Option and Result: Java's nullable references and thrown exceptions,
 * written as values.
 */
module Wrappers {

  /** A nullable reference: `None` plays Java's `null`. */
  datatype Option<+T> = None | Some(value: T)

  /** A call that returns a value or throws. */
  datatype Result<+T, +E> = Ok(value: T) | Err(error: E)
}
