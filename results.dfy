/** Failure-carrying values: Python exceptions raised by the core become `Err`. */
module Results {

  datatype Result<+T, +E> = Ok(value: T) | Err(error: E)

  datatype Option<+T> = None | Some(value: T)
}
