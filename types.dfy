/** Option and Result values shared by the model's modules. */
module Types {

  /** A value that may be absent (Python's `None`, or an attribute not yet set). */
  datatype Option<T> = None | Some(value: T)

  /** The outcome of an operation that can raise: `Err` stands for the exception. */
  datatype Result<T, E> = Ok(value: T) | Err(error: E)
}
