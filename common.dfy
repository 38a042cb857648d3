/** Small shared wrapper types. */
module Common {

  /** A value that may be absent: JavaScript's `null`/`undefined` result of a lookup or a parse. */
  datatype Option<+T> = None | Some(value: T)
}
