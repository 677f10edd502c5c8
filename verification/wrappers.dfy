/** `Option` and `Outcome`, shared by every module of the model. */
module Wrappers {

  /** A value that may be missing: JavaScript's `undefined`/`null`, or an optional field. */
  datatype Option<+T> = None | Some(value: T) {

    /** The value when present, else `default` (JavaScript's `x || default` on a present-or-absent value). */
    function GetOr(default: T): T {
      match this
      case Some(v) => v
      case None => default
    }
  }

  /** The outcome of an action that either completes or throws an error with a message. */
  datatype Outcome = Pass | Fail(message: string)
}
