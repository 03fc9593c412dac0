/** Failure values shared by the parser library and the resolution engine.
    A thrown JavaScript error becomes an `Err`; the two error classes the
    library throws are told apart by their constructor. */
module Errors {

  /** A parser throws a plain `Error`; the resolution engine throws an
      `EnvironmentVariableError`, which differs from it only by its name
      (src/EnvironmentVariableError.ts). Both carry the message. */
  datatype Error =
    | PlainError(message: string)
    | EnvironmentVariableError(message: string)

  /** The outcome of a call that either returns a value or throws. */
  datatype Result<+T> = Ok(value: T) | Err(error: Error)

  /** A value that may be missing: an unset variable, an absent
      description, or the `NaN` of `parseInt`. */
  datatype Option<+T> = None | Some(value: T)
}
