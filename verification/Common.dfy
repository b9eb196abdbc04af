/** Datatypes shared by the other modules. */
module Common {
  datatype Option<+T> = None | Some(value: T)
}
