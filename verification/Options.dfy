/** A value that may be missing: a NULL column, an absent key, an argument left out. */
module Options {

  datatype Option<T> = None | Some(value: T)
}
