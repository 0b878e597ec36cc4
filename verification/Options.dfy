/** A value that may be missing: a nil, or the answer of a call that failed. */
module Options {

  datatype Option<T> = None | Some(value: T)
}
