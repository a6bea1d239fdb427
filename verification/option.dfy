/** The optional value used wherever the JavaScript code has `null` or `undefined`. */
module Optional {

  datatype Option<+T> = None | Some(value: T)
}
