/** An optional value, for results that may be absent. */
module Options {
  datatype Option<T> = None | Some(value: T)
}
