/** Option and evaluation-outcome datatypes shared by every module of the model. */
module Wrappers {

  /** A value that may be missing. */
  datatype Option<+T> = None | Some(value: T) {

    /** The held value, or `default` when there is none. */
    function GetOr(default: T): T {
      match this
      case Some(v) => v
      case None => default
    }
  }

  /** The outcome of evaluating JavaScript that can throw a TypeError
      (reading a property of `null`, calling a method the value lacks). */
  datatype Eval<+T> = Done(value: T) | Threw
}
