/** Optional values and error-or-value results, used where the source writes
    `undefined` for an absent field or throws an `Error` with a message. */
module Wrappers {

  datatype Option<+T> = None | Some(value: T)

  datatype Result<+T, +E> = Ok(value: T) | Err(error: E)
}
