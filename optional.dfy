/** An optional value: JavaScript's `undefined` / a missing Map entry. */
module Optional {
  datatype Option<+T> = None | Some(value: T)
}
