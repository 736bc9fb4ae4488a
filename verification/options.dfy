/** An optional value: a JavaScript field that may be `undefined`, or a
    request that may not be sent. */
module Options {
  datatype Option<+T> = None | Some(value: T)
}
