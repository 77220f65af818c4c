/** The usual Some/None wrapper, for values that may be absent (a parse that
    fails, a storage key that is not set). */
module Options {
  datatype Option<+T> = None | Some(value: T)
}
