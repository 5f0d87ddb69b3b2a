/** A value that may be missing: JavaScript's `undefined`/`null`, Python's `None`. */
module Optional {

  datatype Option<+T> = None | Some(value: T)
}
