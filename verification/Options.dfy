/** A value that may be missing, as the source's null and -1 results. */
module Options {
  datatype Option<T> = None | Some(value: T)
}
