/** The optional value used wherever the game returns `Option<T>`. */
module Optional {
  datatype Option<T> = None | Some(value: T)
}
