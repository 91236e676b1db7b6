/** An optional value: a nullable column or an absent form entry. */
module Options {
  datatype Option<+T> = None | Some(value: T)
}
