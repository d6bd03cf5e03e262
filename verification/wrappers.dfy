/** Optional values and error-carrying results, used wherever the Java or
    TypeScript code returns null/undefined or throws. */
module Wrappers {

  /** A value that may be absent (Java `null`, TypeScript `undefined`). */
  datatype Option<+T> = None | Some(value: T)

  /** Either a value or the error the source would throw instead. */
  datatype Result<+T, +E> = Ok(value: T) | Err(error: E)
}
