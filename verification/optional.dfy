/** The absent-or-present value used wherever the extension writes `null` or `undefined`. */
module Optional {

  datatype Option<+T> = None | Some(value: T)
}
