// A value or none, in place of null pointers and failed searches.
module Options {
  datatype Option<+T> = None | Some(value: T)
}
