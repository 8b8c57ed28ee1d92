/** A value that may be absent; stands for JavaScript's `null`. */
module Optional {
  datatype Option<T> = None | Some(value: T)
}
