/** The two failure-carrying datatypes every component uses. */
module Wrappers {

  /** A column that may be NULL, or a query that may find nothing. */
  datatype Option<+T> = None | Some(value: T)

  /** The outcome of a call that may throw. */
  datatype Result<+T, +E> = Ok(value: T) | Err(error: E)
}
