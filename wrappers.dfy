/** Wrappers shared by the model: a value that may be missing,
    and a value or an error message. */
module Wrappers {

  /** A value that may be absent; the model's stand-in for a pandas null (NaN/None). */
  datatype Option<+T> = None | Some(value: T)

  /** A computed value, or the error a step raised instead. */
  datatype Result<+R, +E> = Ok(value: R) | Err(error: E)
}
