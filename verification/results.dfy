/** The success-or-failure value that the model uses wherever the source panics. */
module Results {

  datatype Result<+T, +E> = Ok(value: T) | Err(error: E)

}
