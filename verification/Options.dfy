/** The result type of lookups that may find nothing (a NULL pointer in the source). */
module Options {
  datatype Option<+T> = None | Some(value: T)
}
