/** Optional values and results, used for pandas' missing cells (NaN) and for
    the script's fatal errors. */
module Wrappers {

  /** A cell or a derived value that may be missing (pandas NaN). */
  datatype Option<+T> = None | Some(value: T)

  /** The outcome of an operation that may abort with an error. */
  datatype Result<+T, +E> = Success(value: T) | Failure(error: E)
}
