/** Shared vocabulary: optional values, the Python exceptions the editing
    commands can raise, and Python's `x or default` on optional milliseconds. */
module Base {

  datatype Option<+T> = None | Some(value: T)

  /** The exceptions that escape a command. Nothing in the shell catches them,
      so each one ends the interactive session. */
  datatype PyError = IndexError | ValueError | TypeError | AssertionError | ZeroDivisionError

  /** What one editing operation did: finished, reported a malformed number and
      changed nothing, or raised an exception. */
  datatype Status = Ok | NotANumber | Raised(error: PyError)

  /** Python's `point or default` for an optional millisecond value: both
      `None` and `0` are falsy and select the default. */
  function Or(point: Option<int>, default: int): (r: int)
    ensures point.Some? && point.value != 0 ==> r == point.value
    ensures point.None? || point.value == 0 ==> r == default
  {
    if point.Some? && point.value != 0 then point.value else default
  }

  /** `getattr(obj, name)` over a fixed list of attributes: the first item in
      `items` whose name is `name`. */
  function FindNamed<T(==)>(name: string, items: seq<T>, nameOf: T -> string): (r: Option<T>)
    ensures r.Some? ==> r.value in items && nameOf(r.value) == name
    ensures r.None? ==> forall x :: x in items ==> nameOf(x) != name
  {
    if items == [] then None
    else if nameOf(items[0]) == name then Some(items[0])
    else FindNamed(name, items[1..], nameOf)
  }
}
