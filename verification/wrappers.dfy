/** The optional-value datatype used wherever the library reports "not found"
    (std::string::npos, a missing map key, a number that does not parse). */
module Wrappers {

  datatype Option<+T> = None | Some(value: T) {

    /** Returns the value in Some, or `default` for None. */
    function GetOr(default: T): T {
      match this
      case Some(v) => v
      case None => default
    }
  }
}
