/** An optional value, for results and fields that may be absent. */
module Options {
  datatype Option<+T> = None | Some(value: T)
}
