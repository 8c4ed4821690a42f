/** The optional value used wherever the program may hold `null` or `undefined`. */
module Optional {

  /** `None` stands for a missing (null or undefined) value, `Some(v)` for a present one. */
  datatype Option<+T> = None | Some(value: T)
}
