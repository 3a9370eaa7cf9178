/** Optional values and results shared by every module of the model. */
module Wrappers {
  /** A value that may be absent: Kotlin's `T?`, Swift's `Optional`, JavaScript's `undefined`/`null`. */
  datatype Option<T> = None | Some(value: T)
  {
    function GetOr(default: T): (r: T)
      ensures Some? ==> r == value
      ensures None? ==> r == default
    {
      match this
      case None => default
      case Some(v) => v
    }
  }

  /** The outcome of an operation that throws in the source: a value or the exception's description. */
  datatype Result<T, E> = Ok(value: T) | Err(error: E)
}
