/** The two Python exceptions the rendering core can raise, and a result type that carries them. */
module Errors {

  /** `IndexError` from a list or string index that is out of range;
      `ValueError` from the style factory, with its message. */
  datatype Error = IndexError | ValueError(message: string)

  datatype Result<+T> = Ok(value: T) | Err(error: Error)
}
