/** Values that may be absent: a missing object key, `undefined`, Python's
    `None`. A JSON `null` is folded into absence too, which is exact for
    `||` and `=== true` but not for template text (see `Dashboard.MapSituation`
    in the README's "Left out"). */
module Common {

  datatype Option<+T> = None | Some(value: T) {

    function GetOr(default: T): T {
      match this
      case Some(v) => v
      case None => default
    }
  }

  /** A possibly absent string is truthy, in JavaScript and in Python alike,
      when it is present and not empty. */
  predicate Truthy(v: Option<string>) {
    v.Some? && v.value != ""
  }
}
