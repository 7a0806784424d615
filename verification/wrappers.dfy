/** Failure-compatible wrappers used throughout the model: an optional value,
    and the settled outcome of a promise (fulfilled value or rejection reason). */
module Wrappers {

  datatype Option<+T> = None | Some(value: T)

  /** `Ok` is a fulfilled promise, `Err` a rejected one. */
  datatype Result<+R, +E> = Ok(value: R) | Err(error: E)

}
