/** The usual optional value, for operations that can fail. */
module Options {

  datatype Option<T> = None | Some(value: T)
}
