/** An optional value: `None` stands for input that could not be used. */
module Options {

  datatype Option<+T> = None | Some(value: T)
}
