/** The two result shapes used throughout: a value that may be missing, and one that may
    have been refused. */
module Wrappers {
  datatype Option<+T> = None | Some(value: T)

  datatype Result<+T, +E> = Ok(value: T) | Err(error: E)
}
