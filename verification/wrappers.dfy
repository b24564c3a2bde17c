/** Optional values and step results shared by the model. */
module Wrappers {

  /** An optional value: `None` stands for JavaScript's `undefined` argument or a missed match. */
  datatype Option<+T> = None | Some(value: T) {

    /** The wrapped value, or `default` when there is none. */
    function GetOr(default: T): T {
      match this
      case Some(v) => v
      case None => default
    }
  }

  /** The value of a step that either produced `value` or threw `error`. */
  datatype Result<+R, +E> = Success(value: R) | Failure(error: E)
}
