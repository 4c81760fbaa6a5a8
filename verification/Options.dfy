/** A value that may be absent: the source's null and undefined. */
module Options {

  datatype Option<T> = None | Some(value: T)
}
