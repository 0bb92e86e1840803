/** Values that may be absent: a `null`, an `undefined`, a missing row. */
module Options {
  datatype Option<+T> = None | Some(value: T)
}
