/** The optional-value datatype used for Python's nullable values and absent payload keys. */
module Wrappers {

  datatype Option<+T> = None | Some(value: T)

  /** The result of a Python call that either returns a value or raises an exception
      whose text is `msg`. */
  datatype Outcome<+T> = Done(value: T) | Raised(msg: string)

  /** A nullable text value is "truthy" in Python when it is set and non-empty. */
  predicate Present(o: Option<string>)
  {
    o.Some? && o.value != ""
  }

  /** Python's `str(x)` of a nullable text value: `None` prints as "None". */
  function PyStr(o: Option<string>): string
  {
    if o.Some? then o.value else "None"
  }
}
