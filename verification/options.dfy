/** A value or an abort of the program. */
module Options {
  datatype Option<+T> = None | Some(value: T)
}
