/** The absent-or-present value that stands for JavaScript's `undefined`/`null`
    next to a value, and for a computation that threw. */
module Optional {
  datatype Option<+T> = None | Some(value: T) {
    /** `x ?? d`. */
    function GetOr(default: T): T {
      match this
      case Some(v) => v
      case None => default
    }
  }
}
