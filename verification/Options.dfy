/** A value that may be absent: std::optional, OptionalString, an iterator that may be end(). */
module Options {
  datatype Option<+T> = None | Some(value: T)
}
