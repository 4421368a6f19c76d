/** Optional values and success-or-error results, shared by the other modules. */
module Wrappers {

  /** An optional value: Python's `None` or a present value. */
  datatype Option<+T> = None | Some(value: T)

  /** Either a successful value or the error that a handler reports to the chat. */
  datatype Result<+R, +E> = Ok(value: R) | Err(error: E)
}
