/** Small failure-carrying datatypes shared by the three scripts' models. */
module Wrappers {

  /** A value that may be absent: Python's `None` or a missing dictionary key. */
  datatype Option<+T> = None | Some(value: T)

  /** How a Python call ends: it returns a value, or an exception propagates out of it. */
  datatype Outcome<+T> = Returned(value: T) | Raised

  /** Python truthiness of an optional string: `None` and `""` are falsy. */
  predicate IsSet(s: Option<string>)
  {
    s.Some? && s.value != ""
  }
}
