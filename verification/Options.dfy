module Options {

  /** An optional value: a C pointer or a result that may be missing. */
  datatype Option<T> = None | Some(value: T)
}
