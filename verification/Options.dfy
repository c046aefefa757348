/** The result of an operation that may refuse its arguments. */
module Options {

  datatype Option<+V> = None | Some(value: V)
}
