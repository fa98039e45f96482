/** A value that may be missing: the null pointers of the source. */
module Optional {
  datatype Option<+T> = None | Some(value: T)
}
