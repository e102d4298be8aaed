/** The optional result of a removal: `None` stands for the empty-queue outcome. */
module Optional {

  datatype Option<T> = None | Some(value: T)
}
