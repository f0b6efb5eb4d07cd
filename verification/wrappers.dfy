/**
 * The optional value used throughout the model: Python's `None` versus a
 * present value (a regex group that did not or did participate, a dict
 * entry that is missing or present).
 */
module Wrappers {

  datatype Option<+T> = None | Some(value: T) {

    /** The value, or `default` when there is none (Python's `d.get(k, default)`). */
    function GetOr(default: T): T {
      match this
      case Some(v) => v
      case None => default
    }
  }
}
