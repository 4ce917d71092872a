// The conventional Some/None datatype used for nullable columns and lookups.
module Options {
  datatype Option<+T> = None | Some(value: T)
}
