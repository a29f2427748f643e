/** The optional result used for verdicts that may carry a failure. */
module Options {
  datatype Option<T> = None | Some(value: T)
}
