/** Optional and failure-carrying values shared by every module of the model. */
module Wrappers {

  /** A value that may be absent: Python's `None`, or pandas' NaN in a key column. */
  datatype Option<+T> = None | Some(value: T)

  /** The outcome of a whole run: the finished report, or the exception that ended it. */
  datatype Result<+R, +E> = Success(value: R) | Failure(error: E)
}
