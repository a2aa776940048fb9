/** Option and Result wrappers shared by the modules of the model. */
module Results {

  datatype Option<+T> = None | Some(value: T)

  /** Either the value an operation produced, or the error it reported instead. */
  datatype Result<+T, +E> = Ok(value: T) | Err(error: E)
}
