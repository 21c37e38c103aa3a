/** Option, Result and Outcome: NULL-able columns, operations that may fail, checks that pass or fail. */
module Wrappers {

  /** A column value that may be SQL NULL (`None`). */
  datatype Option<+T> = None | Some(value: T)

  /** The result of an operation that either yields a value or reports an error. */
  datatype Result<+T, +E> = Ok(value: T) | Err(error: E)

  /** The result of a validator that either passes or raises an error. */
  datatype Outcome<+E> = Pass | Fail(error: E)
}
