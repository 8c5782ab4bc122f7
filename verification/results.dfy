/** Absence and failure values used throughout the model: `Option` stands for
    Python's `None`-or-value returns, `Result` for a value-or-raised-exception. */
module Results {

  datatype Option<+T> = None | Some(value: T)

  datatype Result<+T, +E> = Ok(value: T) | Err(error: E)
}
