/** Result and Option shapes shared by every module, and the opaque error report. */
module Common {

  /** The `Result<T, E>` of the service: a value or an error. */
  datatype Result<+T, +E> = Ok(value: T) | Err(error: E)

  datatype Option<+T> = None | Some(value: T)

  /**
   * An `eyre::Report`: an error with a human-readable message. Its causal
   * chain and backtrace are not modelled; only the message is kept.
   */
  datatype Report = Report(message: string)
}
