/** Kotlin's nullable types, written as an explicit Option. */
module Options {

  datatype Option<+T> = None | Some(value: T) {

    /** The value, or `default` when absent (Kotlin's `?:`). */
    function GetOr(default: T): T {
      match this
      case Some(v) => v
      case None => default
    }
  }
}
