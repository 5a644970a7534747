/** Values that may be missing, calls that may fail, and clock readings. */
module Wrappers {
  datatype Option<+T> = None | Some(value: T)

  datatype Result<+T, +E> = Ok(value: T) | Err(error: E)

  /** Nanoseconds on a clock that does not run backwards, 0 standing for the zero time. */
  type Time = nat
}
