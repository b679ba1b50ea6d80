/** Optional values and results carrying an error kind. */
module Options {

  /** A value that may be missing (a NaN cell, an absent form field). */
  datatype Option<+T> = None | Some(value: T)

  /** A computed value or the error raised instead of it. */
  datatype Result<+T, +E> = Ok(value: T) | Err(error: E)
}
