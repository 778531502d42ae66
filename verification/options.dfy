/** Java's nullable references, written as an explicit optional value. */
module Options {
  datatype Option<+T> = None | Some(value: T)
}
