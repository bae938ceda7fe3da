/** The result of an operation of the source that may fail; the text of its error is not modelled. */
module Options {
  datatype Option<+T> = None | Some(value: T)
}
