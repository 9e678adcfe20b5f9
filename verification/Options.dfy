/** The Some/None datatype used where the source has `undefined`. */
module Options {
  datatype Option<+T> = None | Some(value: T)
}
