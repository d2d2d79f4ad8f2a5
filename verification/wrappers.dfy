/** Failure-compatible wrappers shared by every module of the model.

  `Option` stands for a Python value that may be `None`; `Result` stands for a
  computation that either returns a value or raises one of the Python
  exceptions the clinic pipeline can raise.
 */
module Wrappers {

  datatype Option<+T> = None | Some(value: T) {

    predicate IsFailure() {
      None?
    }

    function PropagateFailure<U>(): Option<U>
      requires None?
    {
      None
    }

    function Extract(): T
      requires Some?
    {
      value
    }

    /** The value, or `default` when there is none (Python's `dict.get(k, default)`). */
    function GetOr(default: T): T {
      match this
      case Some(v) => v
      case None => default
    }
  }

  /** The Python exceptions the modelled code can raise. */
  datatype PyError =
    | ValueError      // bad month name, unparseable float(), "{:.2f}" applied to a str
    | TypeError       // arithmetic on a str, comparing a str with a number, subscripting None
    | IndexError      // positional access past the end of a table
    | KeyError        // a dict lookup of a column the row does not have
    | AttributeError  // a str method called on a number or on None
    | OverflowError   // int() of an infinite float

  datatype Result<+T> = Success(value: T) | Failure(error: PyError) {

    predicate IsFailure() {
      Failure?
    }

    function PropagateFailure<U>(): Result<U>
      requires Failure?
    {
      Failure(error)
    }

    function Extract(): T
      requires Success?
    {
      value
    }
  }
}
