/** Optional values shared by every module of the model. */
module Wrappers {

  /** Python's `None` / PHP's `null` versus a present value. */
  datatype Option<+T> = None | Some(value: T) {

    /** The value, or `default` when absent (`env(key, default)`, `dict.get(key, default)`). */
    function GetOr(default: T): T {
      match this
      case Some(v) => v
      case None => default
    }
  }
}
