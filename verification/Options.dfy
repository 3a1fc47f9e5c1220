/** A value that may be missing: null results, and runs that the source halts. */
module Options {

  datatype Option<T> = None | Some(value: T)
}
