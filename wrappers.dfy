/** Optional values and results with an error, used where the Java program returns
    null-like "nothing" or throws. */
module Wrappers {
  datatype Option<+T> = None | Some(value: T)

  datatype Result<+R, +E> = Success(value: R) | Failure(error: E)
}
