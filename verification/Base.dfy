/** A shared datatype. */
module Base {
  datatype Option<+T> = None | Some(value: T)
}
