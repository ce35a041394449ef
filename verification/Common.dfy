/** Result shapes shared by the models: a value or a named failure, a value or nothing. */
module Common {
  datatype Option<+T> = None | Some(value: T)

  datatype Result<+T, +E> = Ok(value: T) | Err(error: E)
}
