/** The "value or nothing" wrapper that stands in for Python's `None`. */
module Options {

  datatype Option<T> = None | Some(value: T)
}
