/** Kotlin's nullable values (`String?`, `PhotoMetadata?`) as an option type. */
module Wrappers {
  datatype Option<+T> = None | Some(value: T) {
    function GetOr(default: T): T {
      match this
      case Some(v) => v
      case None => default
    }
  }
}
