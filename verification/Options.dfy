/** A value, or the case in which the source has none. */
module Options {
  datatype Option<T> = None | Some(value: T)
}
