/** The optional value used for absent request parameters and unresolved lookups. */
module Wrappers {

  datatype Option<T> = None | Some(value: T) {

    /** The value, or `default` when there is none (a destructuring default in the handlers). */
    function GetOr(default: T): T {
      if Some? then value else default
    }
  }
}
