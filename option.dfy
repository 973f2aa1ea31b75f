/** An optional value: `null`/`undefined`/absent on one side, a value on the other. */
module Optional {
  datatype Option<T> = None | Some(value: T)
}
