/** Optional values: Python's `None` or a present value. */
module Wrappers {

  datatype Option<+T> = None | Some(value: T) {

    /** The value if present, otherwise `default`. */
    function GetOr(default: T): T {
      match this
      case Some(v) => v
      case None => default
    }
  }

  /** Python truthiness of an optional string: `None` and `""` are both false. */
  predicate Truthy(s: Option<string>) {
    s.Some? && s.value != ""
  }

  /** Python's `a or b` on optional strings. */
  function OrElse(a: Option<string>, b: Option<string>): Option<string> {
    if Truthy(a) then a else b
  }
}
