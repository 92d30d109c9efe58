/** The optional value used throughout the model: a JavaScript value that may be `undefined`. */
module Optional {

  datatype Option<+T> = None | Some(value: T)
}
