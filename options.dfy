/** The optional result shared by the intersection tests and the samplers. */
module Options {
  datatype Option<+T> = None | Some(value: T)
}
