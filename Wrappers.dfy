/** The optional values that Swift writes as `T?`: a text field's `text`,
    the result of `Int(_:)` and of `firstIndex(of:)`. */
module Wrappers {

  datatype Option<+T> = None | Some(value: T) {

    /** The wrapped value, or `default` when there is none. */
    function GetOr(default: T): T {
      match this
      case Some(v) => v
      case None => default
    }
  }
}
