/** The optional value used for form fields, look-ups and parses that may fail. */
module Options {

  datatype Option<+T> = None | Some(value: T)
}
