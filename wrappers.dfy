/** Option and Result, the two wrappers the model uses for absent values and raised errors. */
module Wrappers {
  datatype Option<T> = None | Some(value: T)

  /** `Err` carries the message of the exception the source raises. */
  datatype Result<T> = Ok(value: T) | Err(error: string)
}
