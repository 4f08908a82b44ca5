/** Values that may be absent: Python's None, a missing row, or an exception raised. */
module Options {
  datatype Option<+T> = None | Some(value: T)
}
