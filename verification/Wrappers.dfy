/** Option, shared by all modules. */
module Wrappers {
  datatype Option<+T> = None | Some(value: T) {
    /** The contained value, or `fallback` when there is none. */
    function GetOr(fallback: T): T {
      match this
      case Some(v) => v
      case None => fallback
    }

    /** The first of two options that holds a value. */
    function OrElse(other: Option<T>): Option<T> {
      if Some? then this else other
    }
  }
}
