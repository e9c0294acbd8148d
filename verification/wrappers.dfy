/** Failure-compatible wrappers shared by every module of the model. */
module Wrappers {

  /** A value that may be absent (Rust `Option`, a JavaScript `undefined`). */
  datatype Option<+T> = None | Some(value: T) {

    /** The carried value, or `default` when absent. */
    function GetOr(default: T): (r: T)
      ensures Some? ==> r == value
      ensures None? ==> r == default
    {
      match this
      case Some(v) => v
      case None => default
    }

    /** `Option::or`: this value when present, else `other`. */
    function Or(other: Option<T>): (r: Option<T>)
      ensures Some? ==> r == this
      ensures None? ==> r == other
    {
      if Some? then this else other
    }
  }

  /** A success value or an error message (Rust `Result<T, String>`). */
  datatype Result<+T> = Ok(value: T) | Err(error: string) {

    /** Rewrites the error message, keeping a success value untouched. */
    function MapErr(f: string -> string): (r: Result<T>)
      ensures Ok? ==> r == this
      ensures Err? ==> r == Err(f(error))
    {
      match this
      case Ok(v) => Ok(v)
      case Err(e) => Err(f(e))
    }
  }
}
