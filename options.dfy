/** An optional value: JavaScript's `undefined`/`null` for a missing field, and "no result". */
module Options {

  datatype Option<T> = None | Some(value: T) {

    /** The value if present, otherwise `default` (the `??` / `||` fallback). */
    function GetOr(default: T): T {
      match this
      case Some(v) => v
      case None => default
    }
  }
}
