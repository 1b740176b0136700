/** Rust's `Option`, as used by the record fields and the probe results. */
module Options {

  datatype Option<+T> = None | Some(value: T) {

    /** `unwrap_or` / `unwrap_or_default`: the value, or `default` when absent. */
    function GetOr(default: T): T {
      match this
      case Some(v) => v
      case None => default
    }
  }
}
