/** The optional value used by the models of nullable pointers and of failing lookups. */
module Options {
  datatype Option<+T> = None | Some(value: T)
}
