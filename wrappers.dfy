/** Option and Result, the two wrappers every query and statement of the store returns. */
module Wrappers {

  /** `Some(v)` for data, `None` for "no data". */
  datatype Option<+T> = None | Some(value: T)

  /** The outcome of a statement sent to the database. */
  datatype Result<+T, +E> = Ok(value: T) | Err(error: E)
}
