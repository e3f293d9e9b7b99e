/** Values that may be absent; None also stands for a raised ValueError. */
module Option {
  datatype Option<+T> = None | Some(value: T)
}
