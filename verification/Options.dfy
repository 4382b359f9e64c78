/** A value that may be missing: Python's None, or a key that is absent. */
module Options {
  datatype Option<+T> = None | Some(value: T)
}
