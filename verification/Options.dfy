/** A value that may be missing: null pointers, unset variables, failed calls. */
module Options {
  datatype Option<+T> = None | Some(value: T)
}
