/** Optional values: an absent object property (`undefined`) is `None`. */
module Wrappers {

  datatype Option<+T> = None | Some(value: T) {

    /** The value, or `default` when absent. For a string this agrees with
        JavaScript's `x || default` only when `default` is `""`: for a present
        empty string `"" || d` gives `d`, while `GetOr` gives `""`. */
    function GetOr(default: T): T
    {
      match this
      case Some(v) => v
      case None => default
    }
  }
}
