/** The option type shared by the component models. */
module Options {
  datatype Option<+T> = None | Some(value: T)
}
