/** A value that may be missing: what the source returns as nil, as a false flag or as an error. */
module Options {

  datatype Option<+T> = None | Some(value: T)
}
