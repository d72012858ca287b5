/** The two wrapper types used in place of Go's (value, error) pairs and zero values. */
module Results {

  datatype Option<+T> = None | Some(value: T)

  datatype Result<+T, +E> = Ok(value: T) | Err(error: E)
}
