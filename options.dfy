/** The usual Some/None wrapper, for lookups that may find nothing. */
module Options {
  datatype Option<+T> = None | Some(value: T)
}
