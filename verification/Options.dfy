/** The value a Go pointer may or may not point to. */
module Options {
  datatype Option<+T> = None | Some(value: T)
}
