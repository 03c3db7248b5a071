/** An optional value: a field or query parameter that may be absent. */
module Maybe {

  datatype Option<T> = None | Some(value: T) {

    /** The value when present, otherwise the given default. */
    function GetOr(default: T): T {
      match this
      case Some(v) => v
      case None => default
    }
  }
}
