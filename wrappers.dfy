/** Optional values and results with an error, for nullable references and
    thrown exceptions of the modelled code. */
module Wrappers {
  /** A value that may be absent (a C# null reference). */
  datatype Option<+T> = None | Some(value: T)

  /** Either a value or the exception that replaced it. */
  datatype Result<+T, +E> = Success(value: T) | Failure(error: E)
}
