/** Small shared datatypes: an optional value and the success-or-exception
    outcome of an operation that may raise `ValueError`. */
module Common {

  datatype Option<+T> = None | Some(value: T)

  /** The exception the validators raise, with its message. */
  datatype Error = ValueError(message: string)

  /** Either the value an operation returns or the exception it raises. */
  datatype Result<+T> = Ok(value: T) | Err(error: Error)
}
