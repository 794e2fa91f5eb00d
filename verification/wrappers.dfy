/** Option is used wherever the game answers `false` for "not known yet". */
module Wrappers {

  /** None stands for entryway.js's `false` (pending, unavailable); Some carries a real value, 0 included. */
  datatype Option<+T> = None | Some(value: T) {

    /** The known value, or `default` while it is still pending. */
    function GetOr(default: T): T {
      match this
      case Some(v) => v
      case None() => default
    }
  }
}
