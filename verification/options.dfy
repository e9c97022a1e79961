/** A value that may be absent: the program's None, a missing row, or a float that is not a number. */
module Options {
  datatype Option<+T> = None | Some(value: T)
}
