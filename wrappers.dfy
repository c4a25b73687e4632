/** Option and Result values for the model's optional fields and failing operations. */
module Wrappers {

  datatype Option<+T> = None | Some(value: T)

  /** A failing computation: `Ok` carries the value, `Err` the error message. */
  datatype Result<+T> = Ok(value: T) | Err(msg: string)
}
