/** Optional values: the model's stand-in for a JSON key that may be absent. */
module Wrappers {

  /** A value that is either present (`Some`) or absent (`None`). */
  datatype Option<+T> = None | Some(value: T) {

    /** The present value, or `default` when absent (Python's `dict.get(key, default)`). */
    function GetOr(default: T): T {
      match this
      case Some(v) => v
      case None => default
    }
  }
}
