/** An optional value, for the source's `T | None`. */
module Options {
  datatype Option<+T> = None | Some(value: T)
}
