/** Failure-carrying datatypes shared by the model: Rust's `Option` and
    `Result`, with the error side reduced to a tag. */
module Results {

  datatype Option<+T> = None | Some(value: T)

  datatype Result<+T, +E> = Ok(value: T) | Err(error: E)
}
