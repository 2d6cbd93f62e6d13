/** Optional values and failure-carrying results shared by every module of the model. */
module Wrappers {

  /** JavaScript's `undefined`/`null` against a present value. */
  datatype Option<+T> = None | Some(value: T)

  /** A value, or the message of the `Error` the source throws instead. */
  datatype Result<+T> = Ok(value: T) | Err(error: string)
}
