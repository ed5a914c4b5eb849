/** The one helper datatype every component shares: a value that may be absent (`null`/`undefined`). */
module Optional {
  datatype Option<+T> = None | Some(value: T)
}
