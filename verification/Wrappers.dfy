/** The two failure-carrying types shared by the modules of this project. */
module Wrappers {

  /** A value that may be absent (the source's `undefined`). */
  datatype Option<+T> = None | Some(value: T)

  /** A value, or the error the source throws instead of returning one. */
  datatype Result<+T, +E> = Success(value: T) | Failure(error: E)
}
