/** An optional value, for the source's `(value, ok)` results. */
module Options {
  datatype Option<+T> = None | Some(value: T)
}
