/** Failure-compatible wrappers: Java's nullable references become `Option`,
    and a call that either returns or throws becomes a `Result`. */
module Wrappers {

  /** A nullable Java reference: `None` stands for `null`. */
  datatype Option<+T> = None | Some(value: T) {

    /** The wrapped value, or `default` for `null`. */
    function GetOr(default: T): T {
      match this
      case Some(v) => v
      case None => default
    }
  }

  /** The outcome of a Java call: a returned value or a thrown exception. */
  datatype Result<+T, +E> = Success(value: T) | Failure(error: E)
}
