/** The optional value used for error paths. */
module Options {
  datatype Option<T> = None | Some(value: T)
}
