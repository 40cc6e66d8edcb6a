/** Absent-or-present values, for the lookups and decisions that may yield nothing. */
module Options {
  datatype Option<+T> = None | Some(value: T)
}
