/** Optional values and results with an error, used for the JavaScript
    `undefined` field and for `throw` across every module of the model. */
module Wrappers {

  datatype Option<+T> = None | Some(value: T)

  datatype Result<+T, +E> = Ok(value: T) | Err(error: E)
}
