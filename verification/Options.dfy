/** The result of an operation that may be refused. */
module Options {
  datatype Option<T> = None | Some(value: T)
}
