/** Failure-compatible values used for the external services: a retrieval
    or a chat completion either produces a value or raises. */
module Wrappers {

  datatype Option<+T> = None | Some(value: T) {
    /** The value when present, `default` for None. With `""` as the default
        this is Python's `t or ""` for an optional string: None and `""`
        both give `""`. */
    function ValueOr(default: T): T {
      match this
      case Some(v) => v
      case None => default
    }
  }

  /** `Err` carries the text of the exception (`str(e)`). */
  datatype Result<+T> = Ok(value: T) | Err(error: string)
}
