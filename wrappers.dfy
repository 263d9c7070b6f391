/** An absent-or-present value: a JSON field that may be missing, a query
    parameter that may not be given, a maximum over possibly no rows. */
module Wrappers {

  datatype Option<+T> = None | Some(value: T) {

    /** The value if present, otherwise `default` (a destructuring default). */
    function GetOr(default: T): T {
      match this
      case Some(v) => v
      case None => default
    }
  }
}
