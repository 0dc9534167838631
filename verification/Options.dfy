/** The optional values that stand for Go's nil pointers and nil errors. */
module Options {

  datatype Option<+T> = None | Some(value: T)
}
