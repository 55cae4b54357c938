/** An optional value: a Java reference that may be `null`, or an operation that may fail. */
module Optional {
  datatype Option<T> = None | Some(value: T)
}
