/** A value that may be missing: Go's (value, ok) and (value, err) results. */
module Options {
  datatype Option<+T> = None | Some(value: T)
}
