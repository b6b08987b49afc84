/** Optional values and error results shared by every module of the model. */
module Wrappers {

  /** A Java reference that may be null. */
  datatype Option<+T> = None | Some(value: T) {
    predicate IsNone() {
      None?
    }

    function GetOr(default: T): T {
      match this
      case None => default
      case Some(v) => v
    }
  }

  /** The length of a list that may be null: a null list counts as empty. */
  function LengthOrZero<T>(xs: Option<seq<T>>): (n: nat)
    ensures xs.None? ==> n == 0
    ensures xs.Some? ==> n == |xs.value|
  {
    if xs.None? then 0 else |xs.value|
  }

  /** The errors the modelled code raises or reports instead of returning a value. */
  datatype Error =
    | NullPointer
    | IndexOutOfBounds
    | NumberFormat
    | UnsupportedOperation
    | IllegalArgument
    | UriError
    | XmlFormat
    | ClassCast
    | IllegalFormat
    | TypeError
    | SqlConstraint

  /** Either a value or the exception the Java or JavaScript code throws instead. */
  datatype Result<+T> = Ok(value: T) | Err(error: Error) {
    predicate IsFailure() {
      Err?
    }
  }
}
