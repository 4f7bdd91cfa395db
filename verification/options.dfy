/** Optional values, for the fields a decoded glTF document may leave out. */
module Options {

  datatype Option<+T> = None | Some(value: T) {

    /** The value held, or `default` when there is none (Rust's `unwrap_or`). */
    function GetOr(default: T): T {
      match this
      case Some(v) => v
      case None => default
    }
  }
}
