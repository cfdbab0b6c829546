/**
 * Optional values and error-or-value results shared by every service module.
 * A Java `null` field becomes `None`; a `throw new RuntimeException(msg)` becomes `Err(msg)`.
 */
module Wrappers {

  datatype Option<+T> = None | Some(value: T) {

    /** The held value, or `default` for a null field. */
    function GetOr(default: T): T {
      match this
      case Some(v) => v
      case None => default
    }
  }

  /**
   * The partial-patch rule of every `update…` service call: a field of the
   * result is the supplied value when it is non-null, else the stored one.
   */
  predicate Overwrites<T(==)>(stored: T, given: Option<T>, result: T) {
    result == (if given.Some? then given.value else stored)
  }

  /** The outcome of a service call: a value, or the message of the exception it throws. */
  datatype Result<+T> = Ok(value: T) | Err(message: string)
}
