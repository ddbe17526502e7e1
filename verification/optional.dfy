/** The optional value used wherever the Swift source returns `T?`. */
module Optional {

  datatype Option<+T> = None | Some(value: T)
}
