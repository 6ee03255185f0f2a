/** Wrappers shared by every component of the model. */
module Common {

  /** Durations are whole nanoseconds. */
  const MILLISECOND: int := 1_000_000
  const SECOND: int := 1_000_000_000
  const MINUTE: int := 60_000_000_000

  /** A nullable column or pointer. */
  datatype Option<+T> = None | Some(value: T)

  /** A value or the error a call returned. */
  datatype Result<+T, +E> = Ok(value: T) | Err(error: E)
}
