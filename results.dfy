/** Outcome types shared by the model: `Option` for a value that may be absent and
    `Result` for an operation that either succeeds or stops with an error. */
module Results {

  datatype Option<+T> = None | Some(value: T)

  datatype Result<+T, +E> = Ok(value: T) | Err(error: E)
}
