/**
 * A value that may be absent (a `T | null` of the source).
 */
module Options {
  datatype Option<T> = None | Some(value: T)
}
