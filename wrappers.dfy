/** Option and Result values shared by the modules of this model. */
module Wrappers {

  /** A JavaScript value that may be `undefined`. */
  datatype Option<+T> = None | Some(value: T)

  /** The outcome of a callback-style call: `cb(null, value)` or `cb(err)`. */
  datatype Result<+T> = Ok(value: T) | Err(error: string)
}
