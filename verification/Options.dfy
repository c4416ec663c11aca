/** The absent-or-present value, for the source's null. */
module Options {
  datatype Option<+A> = None | Some(value: A)
}
