/** Values that may be absent: SQL NULL and Python None. */
module Options {
  datatype Option<+T> = None | Some(value: T)

  /** SQL COALESCE: the value, or `otherwise` when it is absent. */
  function Coalesce<T>(o: Option<T>, otherwise: T): T {
    if o.Some? then o.value else otherwise
  }
}
