/** An optional value, for missing rows and failed look-ups. */
module Options {

  datatype Option<T> = None | Some(value: T)
}
