/** Option and Result values used for the model's error paths. */
module Wrappers {

  datatype Option<+T> = None | Some(value: T)

  /** The outcome of a call into a collaborator that may raise: its value or the error message. */
  datatype Result<+T> = Ok(value: T) | Err(message: string)
}
