/** The usual Some/None wrapper, used for "no match" and "does not parse". */
module Options {
  datatype Option<+T> = None | Some(value: T)
}
