/** Option and Result values for the absent values and error paths of the modelled code. */
module Wrappers {

  /** A value that may be absent (`undefined`, `null`, `NaN` or a failed match in the source). */
  datatype Option<+T> = None | Some(value: T)

  /** The outcome of an operation that may throw or report an error. */
  datatype Result<+T, +E> = Ok(value: T) | Err(error: E)
}
