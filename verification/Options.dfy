/** Values that may be absent, as a C pointer may be NULL. */
module Options {
  datatype Option<+T> = None | Some(value: T)
}
