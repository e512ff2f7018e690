/** Optional values: JavaScript's `null`/`undefined`, Rust's `Option`, Python's `None`. */
module Maybe {

  datatype Option<T> = None | Some(value: T) {

    /** The value, or `d` when absent (Rust `unwrap_or`, JavaScript `?? d`). */
    function GetOr(d: T): T {
      if Some? then value else d
    }

    /** This option if present, else `other` (Rust `Option::or`). */
    function Or(other: Option<T>): Option<T> {
      if Some? then this else other
    }
  }
}
