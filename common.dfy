/** Values shared by the controllers of the page script. */
module Common {

  /** A value that may be absent: a DOM lookup that can return null, an attribute
      that may be missing, a key that may not be stored. */
  datatype Option<T> = None | Some(value: T)
}
