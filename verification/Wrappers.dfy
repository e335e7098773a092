/** The two result shapes every other module uses. */
module Wrappers {

  /** A nullable column, or a lookup that may find nothing. */
  datatype Option<T> = None | Some(value: T) {
    function GetOr(default: T): T {
      match this
      case Some(v) => v
      case None => default
    }

    /** Python's `self or other` on a nullable timestamp. */
    function Or(other: Option<T>): Option<T> {
      if Some? then this else other
    }
  }

  /** A value, or the exception that the source raises instead. */
  datatype Result<T, E> = Ok(value: T) | Err(error: E)
}
