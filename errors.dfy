/** The failures the modelled code can raise, and the result wrappers that carry them. */
module Errors {

  /** The Java exception classes the core throws. */
  datatype Error = IllegalArgument | IllegalState

  /** A value, or the exception that replaced it. */
  datatype Result<+T> = Ok(value: T) | Err(error: Error)

  /** A possibly-null reference. */
  datatype Option<+T> = None | Some(value: T)
}
