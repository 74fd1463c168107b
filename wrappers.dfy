/** Python's `None`-or-value and raise-or-return, as datatypes. */
module Wrappers {

  /** An `Optional[T]` attribute or expression: `None` or a value. */
  datatype Option<+T> = None | Some(value: T)

  /** A call that either returns a value or raises the error `error`. */
  datatype Result<+T, +E> = Ok(value: T) | Err(error: E)
}
