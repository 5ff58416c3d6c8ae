/** The source uses `null` for "no winner" and "no move"; this is its value-level stand-in. */
module Optional {
  datatype Option<+T> = None | Some(value: T)
}
