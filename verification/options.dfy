/** A value that may be absent: nil, an unset field, not-a-number. */
module Options {
  datatype Option<+T> = None | Some(value: T)
}
