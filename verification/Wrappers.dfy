/** The small types that several models share. */
module Wrappers {
  datatype Option<+T> = None | Some(value: T)

  datatype Result<+T, +E> = Ok(value: T) | Err(error: E)

  /** Milliseconds since the epoch. */
  type Instant = int

  type Byte = b: int | 0 <= b < 256 witness 0
}
