/** Error-or-value wrappers for the operations that can fail. */
module Outcomes {

  datatype Option<T> = None | Some(value: T)

  /** A value, or the message of the error the source returns instead. */
  datatype Result<T> = Ok(value: T) | Err(error: string)
}
