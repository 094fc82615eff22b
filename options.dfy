/** An optional value: an absent request field, an absent query bound, a lookup miss. */
module Options {
  datatype Option<+T> = None | Some(value: T)
}
