/** Small value wrappers shared by the schemas and the two stores. */
module Wrappers {

  /** A value that may be absent (Python's `Optional[...]` / SQL NULL). */
  datatype Option<+T> = None | Some(value: T) {
    function GetOr(default: T): T {
      match this
      case Some(v) => v
      case None => default
    }
  }

  /** One entry of a sparse field mask: a field the caller did not send
      (`exclude_unset` drops it) or a field explicitly set to a value. */
  datatype Patch<+T> = Unset | Set(value: T) {
    /** The value after applying this entry to `current`. */
    function Over(current: T): T {
      match this
      case Unset => current
      case Set(v) => v
    }
  }
}
