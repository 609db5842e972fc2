/** A value that may be missing: the source's `null`, `undefined` or thrown error. */
module Options {
  datatype Option<+T> = None | Some(value: T)
}
