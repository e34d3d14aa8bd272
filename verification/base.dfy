/** Small failure-carrying datatypes shared by every module of the model. */
module Base {

  /** A value that may be absent: JavaScript's `undefined`/`null`, or NaN for numbers. */
  datatype Option<+T> = None | Some(value: T) {

    /** The wrapped value, or `default` when absent (JavaScript's `??`). */
    function GetOr(default: T): T
    {
      match this
      case Some(v) => v
      case None => default
    }
  }
}
