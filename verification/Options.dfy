/** A value the source may hold as `None`. */
module Options {
  datatype Option<+T> = None | Some(value: T)

  /** The first value that is present. */
  function OrElse<T>(a: Option<T>, b: Option<T>): Option<T> {
    if a.Some? then a else b
  }
}
