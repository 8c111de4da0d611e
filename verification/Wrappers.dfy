/** Optional values and results, shared by the modules of the model. */
module Wrappers {
  /** A value that may be missing, for the source's null pointers and negative results. */
  datatype Option<+T> = None | Some(value: T)

  /** A value or the error that stopped the computation. */
  datatype Result<+T, +E> = Success(value: T) | Failure(error: E)
}
