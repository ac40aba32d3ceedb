/** The usual optional value, used wherever the program has nil, a missing map key or a failed step. */
module Options {
  datatype Option<+T> = None | Some(value: T)
}
