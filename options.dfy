/** The conventional optional value, standing for Python's `None` or a value. */
module Options {

  datatype Option<+T> = None | Some(value: T)
}
