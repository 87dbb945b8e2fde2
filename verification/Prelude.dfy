/** Datatypes shared by every module of the project. */
module Prelude {
  datatype Option<+T> = None | Some(value: T)

  /** A value, or the reason the source throws or returns an error. */
  datatype Result<+T, +E> = Ok(value: T) | Err(error: E)

  newtype Byte = x: int | 0 <= x < 256
}
