/** Failure-carrying values shared by every service module. */
module Wrappers {

  /** A nullable column or an absent optional argument. */
  datatype Option<+T> = None | Some(value: T) {

    /** The wrapped value, or `default` when absent (`x || default` on a nullable column). */
    function GetOr(default: T): T {
      match this
      case Some(v) => v
      case None => default
    }
  }

  /** The `{ data, error }` pair a service call returns: exactly one side is present. */
  datatype Result<+T, +E> = Ok(value: T) | Err(error: E)
}
