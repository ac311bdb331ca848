/** The optional values and the failures that the modelled code produces. */
module Wrappers {

  datatype Option<+T> = None | Some(value: T)

  /** A computed value, or the exception that the code raises instead. */
  datatype Result<+T> = Success(value: T) | Failure(error: string)
}
