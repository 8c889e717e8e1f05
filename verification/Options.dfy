/** The absent-or-present result used where the scripts return `None`. */
module Options {
  datatype Option<+T> = None | Some(value: T)

  /** The value of a call that either returns or refuses (a raised error). */
  datatype Result<+T, +E> = Ok(value: T) | Refused(error: E)
}
