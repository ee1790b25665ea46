/** Option and Result values for the error paths of the modelled code. */
module Wrappers {

  datatype Option<T> = None | Some(value: T)

  /** The exceptions the modelled code raises and callers may catch. */
  datatype Error = KeyError

  datatype Result<T> = Ok(value: T) | Err(error: Error)
}
