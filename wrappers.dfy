/** Error results for the engine's parameter checks. */
module Wrappers {

  /** The one error kind the engine raises: a parameter out of its allowed range. */
  datatype Error = InvalidParameter(message: string)

  /** Either a value or the error the operation raised instead. */
  datatype Result<+T> = Ok(value: T) | Err(error: Error)
}
