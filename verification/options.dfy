/** The optional value used where a computation may give no answer. */
module Options {

  datatype Option<+T> = None | Some(value: T)
}
