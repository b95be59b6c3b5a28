/** The Option and Result datatypes shared by the modules of the scan pipeline. */
module Wrappers {

  datatype Option<+T> = None | Some(value: T)

  /** The outcome of an operation that either yields a value or throws an error message. */
  datatype Result<+R, +E> = Success(value: R) | Failure(error: E)
}
