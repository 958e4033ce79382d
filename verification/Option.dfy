/** A value that may be missing: Python's `None` or an absent attribute. */
module OptionType {
  datatype Option<+T> = None | Some(value: T) {
    function GetOr(default: T): T {
      match this
      case Some(v) => v
      case None => default
    }
  }
}
