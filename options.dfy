/** A JavaScript property that may be absent (`undefined`) is an Option. */
module Options {
  datatype Option<+T> = None | Some(value: T)
}
