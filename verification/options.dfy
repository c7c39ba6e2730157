/** An optional value, for lookups and draws that may come back empty. */
module Options {
  datatype Option<+T> = None | Some(value: T)
}
