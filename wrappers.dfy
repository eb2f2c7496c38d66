/** Optional values: Kotlin's nullable results and the optional fields of JSON objects. */
module Wrappers {

  datatype Option<+T> = None | Some(value: T) {

    /** The value, or `default` when there is none (Kotlin's `?:`, org.json's `opt*` fallbacks). */
    function GetOr(default: T): T {
      match this
      case Some(v) => v
      case None => default
    }
  }
}
