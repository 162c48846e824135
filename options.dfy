/** The usual optional value, used for "no match" and for a field that is absent. */
module Options {
  datatype Option<+T> = None | Some(value: T)
}
