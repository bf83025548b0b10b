/** Failure-carrying wrappers and the dynamic values a request body can hold. */
module Wrappers {

  datatype Option<+T> = None | Some(value: T)

  /** A value or the error an operation raises instead of returning one. */
  datatype Result<+T, +E> = Success(value: T) | Failure(error: E)

  /** The outcome of a setter: it either assigned its field or raised. */
  datatype Outcome<+E> = Pass | Fail(error: E)

  /**
   * A value taken out of a decoded JSON body or form with `dict.get`:
   * a missing key and an explicit `null` both read as `Null`.
   */
  datatype Value = Null | Int(i: int) | Str(s: string)

  /** Python truthiness of a value: `None`, `0` and `""` are falsy. */
  predicate Truthy(v: Value)
  {
    match v
    case Null => false
    case Int(i) => i != 0
    case Str(s) => s != []
  }
}
