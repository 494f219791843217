/** The absent-or-present value the converter uses for JavaScript's `null`/`undefined`. */
module Options {

  datatype Option<+T> = None | Some(value: T) {

    /** The value if present, otherwise the given default. */
    function GetOr(default: T): T {
      match this
      case Some(v) => v
      case None => default
    }
  }
}
