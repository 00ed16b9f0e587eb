/** The optional value used wherever a step may not produce a result. */
module Options {

  datatype Option<+T> = None | Some(value: T)
}
