/** Optional values (the source's nullable references) and results (the source's exceptions). */
module Wrappers {

  /** A nullable value: `None` stands for C#'s `null`. */
  datatype Option<+T> = None | Some(value: T) {
    /** The `??` operator: the value if present, else the default. */
    function GetOr(default: T): T {
      match this
      case Some(v) => v
      case None => default
    }

    /** The `??` operator between two nullable values. */
    function OrElse(other: Option<T>): Option<T> {
      if Some? then this else other
    }
  }

  /** A computation that either returns a value or raises an error. */
  datatype Result<+T, +E> = Ok(value: T) | Err(error: E)
}
