/** Failure-carrying wrappers shared by every module of the model. */
module Base {

  /** An optional value; `None` stands for JavaScript's `null`/`undefined`/`NaN`
      results and Python's `None` where the source uses them as "absent". */
  datatype Option<+T> = None | Some(value: T) {

    /** The encapsulated value, or `default` when absent. */
    function GetOr(default: T): T {
      match this
      case Some(v) => v
      case None => default
    }
  }

  /** The outcome of an operation that can throw. */
  datatype Result<+T, +E> = Success(value: T) | Failure(error: E)
}
