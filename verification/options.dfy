/** An optional value: `None` where the page holds `null`. */
module Options {
  datatype Option<+T> = None | Some(value: T)
}
