/** Failure values of the chat wrapper: the Python exceptions its core can raise. */
module Results {

  datatype Option<+T> = None | Some(value: T)

  /** The exceptions the modelled code raises on its error paths. */
  datatype PyError =
    | UnboundLocalError(name: string)  // a local read before any assignment reached it
    | IndexError                       // a list index past the end
    | ValueError                       // int() given a string it cannot convert

  datatype Result<+T> = Ok(value: T) | Err(error: PyError)
}
