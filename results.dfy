/** Outcome of a decoding step and Python's optional values. */
module Results {

  /** A read either yields a value or fails: the Python code raises in that case. */
  datatype Result<+T> = Ok(value: T) | Fail

  /** A value that may be Python's `None`. */
  datatype Option<+T> = None | Some(value: T)
}
