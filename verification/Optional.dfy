/** The nullable column or optional argument, shared by every module. */
module Optional {
  datatype Option<+T> = None | Some(value: T)
}
