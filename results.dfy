/** Failure-compatible types shared by the command modules. */
module Results {

  /** `anyhow::Result<T>`: a value, or an error carrying its message. */
  datatype Result<+T> = Ok(value: T) | Err(error: string)

  /** `Option<T>`. */
  datatype Option<+T> = None | Some(value: T)
}
