/** The value-or-nothing wrapper used wherever the Java code returns null or throws. */
module Optional {
  datatype Option<T> = None | Some(value: T)
}
