/** A value that may be absent: what C code says with a NULL pointer. */
module Options {

  datatype Option<+T> = None | Some(value: T)
}
