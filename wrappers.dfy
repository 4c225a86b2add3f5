/** The optional value used for nullable columns, absent request fields and
    "first row or nothing" queries. */
module Wrappers {

  datatype Option<+T> = None | Some(value: T) {
    function GetOr(default: T): T {
      match this
      case Some(v) => v
      case None => default
    }
  }
}
