/** Results of operations that can fail. */
module Results {
  datatype Option<+T> = None | Some(value: T)

  datatype Result<+T, +E> = Ok(value: T) | Err(error: E)

  /** A value that does not fit the field it should be packed into. */
  datatype Overflow = Overflow
}
