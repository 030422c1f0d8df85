module Options {
  /** A pointer that may be NULL, or a lookup that may fail. */
  datatype Option<+T> = None | Some(value: T)
}
