/** The optional value used for "no match" and "no stored item". */
module Options {
  datatype Option<+T> = None | Some(value: T)
}
