/** A value that may be missing, for every module of the project. */
module Options {
  datatype Option<+T> = None | Some(value: T)
}
