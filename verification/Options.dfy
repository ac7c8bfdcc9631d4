/** A value that may be absent, as Python's None. */
module Options {
  datatype Option<+T> = None | Some(value: T)

  /** A text that Python's `or`, `and` and `not` treat as present: not None and not the empty string. */
  predicate Given(s: Option<string>) {
    s.Some? && s.value != ""
  }
}
