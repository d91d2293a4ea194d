/** A value that may be absent: what the source expresses by null, a status code or a not-a-number. */
module Options {
  datatype Option<+T> = None | Some(value: T)
}
