/** A value that may be missing: SQL NULL, a Redis key that does not exist, undefined. */
module Options {
  datatype Option<T> = None | Some(value: T)
}
