/** Optional values: SQL NULL, Python None, JavaScript null/undefined. */
module Wrappers {

  datatype Option<+T> = None | Some(value: T) {

    /** The value, or `default` when absent (Python `or`/`coalesce`, JavaScript `??`). */
    function GetOr(default: T): T {
      match this
      case Some(v) => v
      case None => default
    }
  }
}

/** JavaScript values as the client sees them in JSON responses and in React state. */
module JsValues {

  datatype JsValue = Null | Num(n: int) | Str(s: string) | Other

  /** `a === b`: values of different JavaScript types are never strictly equal. */
  predicate StrictEquals(a: JsValue, b: JsValue) {
    a == b && a != Other
  }

  /** Truthiness as used by `a && b` and `a || b`: null, 0 and "" are falsy. */
  predicate Truthy(v: JsValue) {
    match v
    case Null => false
    case Num(n) => n != 0
    case Str(s) => s != ""
    case Other => true
  }
}
