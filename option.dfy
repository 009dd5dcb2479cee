/** A value that may be absent: an optional field or a `T | undefined` result. */
module Optional {
  datatype Option<+T> = None | Some(value: T)
}
