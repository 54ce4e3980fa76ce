/** The optional-value datatype used throughout the model. */
module Wrappers {

  /** `None` stands for a missing key or a value that could not be produced. */
  datatype Option<+T> = None | Some(value: T) {

    /** The wrapped value, or `default` when there is none. */
    function GetOr(default: T): T {
      match this
      case Some(v) => v
      case None => default
    }
  }
}
