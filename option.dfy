/** The optional value of the model: Python's `None` or a present value. */
module Optional {

  datatype Option<T> = None | Some(value: T)
}
