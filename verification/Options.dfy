/** An optional value: None stands for a missing one. */
module Options {

  datatype Option<+T> = None | Some(value: T)
}
