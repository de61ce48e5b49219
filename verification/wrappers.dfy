/** The optional-value datatype shared by every module of the model. */
module Wrappers {

  /** A value that may be absent: a nullable database column, a missing
      lookup, or a navigation state that was never set. */
  datatype Option<+T> = None | Some(value: T) {

    /** The value, or `default` when absent (Python's `dict.get(k, default)`). */
    function GetOr(default: T): T {
      match this
      case Some(v) => v
      case None => default
    }
  }
}
