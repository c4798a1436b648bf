/** Small shared vocabulary: optional values, results with an error, and `Min`. */
module Base {

  /** A value that may be absent, as a JSON key that may be missing. */
  datatype Option<+T> = None | Some(value: T)

  /** The outcome of a step that may raise: a value, or the error that aborts the run. */
  datatype Result<+T, +E> = Ok(value: T) | Err(error: E)

  /** The smaller of two integers. */
  function Min(a: int, b: int): int
  {
    if a <= b then a else b
  }
}
