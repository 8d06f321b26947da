/** Presence or absence of a value: nullable columns, missing rows, declined operations. */
module Options {
  datatype Option<+T> = None | Some(value: T)
}
