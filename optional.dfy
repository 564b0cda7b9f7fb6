/** The optional value used wherever the game reads `null`/`undefined`. */
module Optional {
  datatype Option<+T> = None | Some(value: T)
}
