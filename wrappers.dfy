/** Option and Result values shared by every model module. */
module Wrappers {

  /** A value that may be absent; also stands for Python's None and for a NaN "gap". */
  datatype Option<+T> = None | Some(value: T)

  /** The outcome of an operation that raises on its error paths. */
  datatype Result<+T, +E> = Ok(value: T) | Err(error: E)
}
