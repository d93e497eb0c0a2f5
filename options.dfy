/** The optional value used wherever the script works with `null` or `undefined`. */
module Options {

  datatype Option<+T> = None | Some(value: T)
}
