/** Outcomes of operations that may raise: the scripts catch every exception and only print its message. */
module Outcomes {

  /** Either the value an operation produced or the message of the exception it raised. */
  datatype Result<+T> = Ok(value: T) | Err(message: string)

  datatype Option<+T> = None | Some(value: T)
}
