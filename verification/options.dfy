/** The conventional optional value, used for "no match" and "line skipped" results. */
module Options {

  datatype Option<+T> = None | Some(value: T)
}
