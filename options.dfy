/** An optional value, for the places where the source gets `None` back. */
module Options {

  datatype Option<T> = None | Some(value: T)
}
