/** The optional-value datatype shared by every module of the model. A Python
    `None` (or a value the code treats like one) is `None` here. */
module Wrappers {

  datatype Option<+T> = None | Some(value: T) {

    /** The carried value, or `default` when there is none. */
    function GetOr(default: T): T {
      match this
      case Some(v) => v
      case None => default
    }
  }
}
