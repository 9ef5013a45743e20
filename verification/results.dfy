/**
 Failure-carrying values used by the model in place of Python's exceptions
 and `dict.get` defaults.
 */
module Results {

  /** A value that may be absent, as a key missing from a YAML mapping. */
  datatype Option<+T> = None | Some(value: T) {

    /** The wrapped value, or `default` when absent (Python's `d.get(k, default)`). */
    function GetOr(default: T): T {
      match this
      case Some(v) => v
      case None => default
    }
  }

  /** The outcome of an operation that can raise: `Err` carries what would be raised. */
  datatype Result<+T, +E> = Ok(value: T) | Err(error: E)
}
