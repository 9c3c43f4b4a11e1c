/** Failure-compatible wrappers shared by every module of the model.
    Errors in this code base are always human-readable strings, so `Result`
    carries a `string` on its failure side. */
module Results {

  /** A value that may be absent: JavaScript's `undefined` (or a missing key). */
  datatype Option<+T> = None | Some(value: T) {

    /** The wrapped value, or `default` when absent. */
    function GetOr(default: T): T {
      match this
      case Some(v) => v
      case None => default
    }
  }

  /** Either a computed value or an error message. */
  datatype Result<+T> = Success(value: T) | Failure(error: string)
}
