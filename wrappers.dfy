/** Option and Result: null and thrown exceptions of the Java and JavaScript sources. */
module Wrappers {

  /** A value that may be absent (Java `null`, JavaScript `null`/`undefined`). */
  datatype Option<T> = None | Some(value: T)
  {
    function GetOr(default: T): (r: T)
      ensures this.Some? ==> r == value
      ensures this.None? ==> r == default
    {
      match this
      case None => default
      case Some(v) => v
    }
  }

  /** The outcome of an operation that may throw. */
  datatype Result<T, E> = Ok(value: T) | Err(error: E)
}
