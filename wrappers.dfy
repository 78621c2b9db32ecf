/**
 * Optional values and results.  A failed operation carries the text of the
 * error the service throws, because the HTTP boundary classifies failures by
 * their message (see ErrorHandler).
 */
module Wrappers {

  datatype Option<+T> = None | Some(value: T)

  datatype Result<+T> = Ok(value: T) | Err(message: string)

  datatype Unit = Unit
}
