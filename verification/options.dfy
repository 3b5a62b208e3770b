/** An optional value: a parse that may fail, a generator that may be exhausted. */
module Options {
  datatype Option<T> = None | Some(value: T)
}
