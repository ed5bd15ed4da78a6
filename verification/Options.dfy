/** The two result shapes the other modules share. */
module Options {

  /** Python's `T | None`. */
  datatype Option<+T> = None | Some(value: T)

  /** A returned value, or the exception raised instead. */
  datatype Result<+T, +E> = Ok(value: T) | Err(error: E)
}
