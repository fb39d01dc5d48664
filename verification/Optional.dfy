/** A value that may be missing: the source's `undefined` and `null`. */
module Optional {
  datatype Option<+T> = None | Some(value: T)
}
