/** The option type the other modules use where the source has a value or None. */
module Options {
  datatype Option<+T> = None | Some(value: T)
}
