module Options {
  /** A value, or the exception that the program raises instead */
  datatype Option<+T> = None | Some(value: T)
}
