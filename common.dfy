/** Shared wrappers: optional values, Python exceptions as error values, and the
    three states a key of a Python `dict` can be in. */
module Common {

  datatype Option<+T> = None | Some(value: T)

  /** The built-in exceptions the modelled code raises. */
  datatype PyError =
    | ValueError
    | IndexError
    | TypeError
    | KeyError
    | AttributeError

  /** A value, or the exception that replaced it. */
  datatype Result<+T> = Success(value: T) | Failure(error: PyError)

  /** The outcome of an operation that returns `None` or raises. */
  datatype Outcome = Pass | Fail(error: PyError)

  /** A key of a Python `dict` read with `d[key]`: missing (KeyError),
      present with the value `None`, or present with a value. */
  datatype Slot<+T> = Missing | Null | Given(value: T)

  /** `d.get(key)`: a missing key and a `None` value read the same. */
  function Get<T>(s: Slot<T>): (r: Option<T>)
    ensures r.Some? <==> s.Given?
  {
    if s.Given? then Some(s.value) else None
  }
}
