/** The optional value used wherever the sheet reads something that may be absent
    (a missing storage key, a text that is not a number, a rejected record). */
module Maybe {
  datatype Option<T> = None | Some(value: T)
}
