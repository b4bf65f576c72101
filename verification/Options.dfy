/** The optional value used where the source has a nullable column or Python's None. */
module Options {
  datatype Option<+T> = None | Some(value: T)
}
