/** Failure-carrying wrappers shared by the scheduler model. */
module Wrappers {

  /** An optional value: the model's replacement for a nullable pointer. */
  datatype Option<+T> = None | Some(value: T)

  /** Either a value or the diagnostic the C code prints before `exit(EXIT_FAILURE)`. */
  datatype Result<+T> = Ok(value: T) | Err(message: string)
}
