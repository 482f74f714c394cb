/** Failure-carrying wrappers used in place of JavaScript's `null`/`undefined`
    results and thrown errors. */
module Wrappers {

  /** `None` stands for the source's `null` ("nothing to flip") result. */
  datatype Option<+T> = None | Some(value: T)

  /** A value, or the error the source would have thrown. */
  datatype Result<+R, +E> = Success(value: R) | Failure(error: E)
}
