/** A value, or none: NULL and error returns. */
module Options {
  datatype Option<T> = None | Some(value: T)
}
