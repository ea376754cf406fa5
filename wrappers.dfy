/** Small failure-carrying result types shared by the modules of this model. */
module Wrappers {

  /** A value that may be absent. */
  datatype Option<+T> = None | Some(value: T)

  /** Either a constructed value or the configuration error the C++ code throws. */
  datatype Result<+R, +E> = Success(value: R) | Failure(error: E)
}
