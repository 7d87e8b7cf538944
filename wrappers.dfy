/** Optional values: JavaScript's null/undefined, NaN results and Python's None. */
module Wrappers {

  datatype Option<+T> = None | Some(value: T) {

    /** The value when present, the default otherwise. */
    function GetOr(default: T): T {
      match this
      case Some(v) => v
      case None => default
    }
  }

  /** JavaScript `a ?? b`: the first operand unless it is null or undefined. */
  function Nullish<T>(a: Option<T>, b: Option<T>): Option<T> {
    if a.Some? then a else b
  }

  /** JavaScript `a || b` and Python `a or b` on optional strings: the first
      operand unless it is missing or the empty string (both falsy). */
  function Truthy(a: Option<string>, b: Option<string>): Option<string> {
    if a.Some? && a.value != "" then a else b
  }
}
