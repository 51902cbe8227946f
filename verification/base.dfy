/** Failure-carrying datatypes shared by the model: `Option` for an absent
    value and `Result` for an operation that raises in Python. */
module Base {

  datatype Option<+T> = None | Some(value: T)

  /** `Ok` is a normal return; `Err` is the exception the Python code raises. */
  datatype Result<+T, +E> = Ok(value: T) | Err(error: E)
}
