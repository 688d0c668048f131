/** Failure-carrying values shared by the other modules: `Option` stands for a
    JavaScript value that may be `undefined`, `Result` for a computation that
    either yields a value or a list of problems. */
module Wrappers {

  datatype Option<+T> = None | Some(value: T) {

    /** The carried value, or `default` when there is none. */
    function GetOr(default: T): T {
      match this
      case Some(v) => v
      case None => default
    }
  }

  datatype Result<+R, +E> = Success(value: R) | Failure(error: E)
}
