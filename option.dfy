/** An optional value: `undefined` in the component where a value may be missing. */
module Optional {
  datatype Option<T> = None | Some(value: T)
}
