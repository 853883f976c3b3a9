/** Failure-carrying values shared by every module of the resampler model.
    `Option` stands for a value that may be absent (a missing JSON key, an
    option not given on the command line, a string `int()` rejects);
    `Result` stands for a call that either returns or raises. */
module Results {

  datatype Option<+T> = None | Some(value: T) {

    /** The value, or `default` when absent (Python's `dict.get(key, default)`). */
    function GetOr(default: T): T {
      match this
      case Some(v) => v
      case None => default
    }
  }

  datatype Result<+T, +E> = Ok(value: T) | Err(error: E)
}
