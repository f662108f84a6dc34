/** Option and result types shared by the package layer. */
module Wrappers {

  datatype Option<+T> = None | Some(value: T)

  /** A value, or the error that the source throws instead. */
  datatype Result<+R, +E> = Success(value: R) | Failure(error: E)

  /** Success or failure of an operation that returns nothing. */
  datatype Outcome<+E> = Pass | Fail(error: E)
}
