/**
 An optional value: the result of a lookup that may find nothing or of a
 read that may fail.
 */
module Options {
  datatype Option<T> = None | Some(value: T)
}
