/** Option and Result, the shapes every query and endpoint of the service answers with. */
module Common {

  /** A value that may be absent: a missing row, an unset parameter, SQL NULL. */
  datatype Option<T> = None | Some(value: T)

  /** The outcome of an endpoint: a value, or the error it raises. */
  datatype Result<T, E> = Ok(value: T) | Err(error: E)
}
