/** An optional value: `None` stands for JavaScript's null/undefined answer. */
module Options {
  datatype Option<T> = None | Some(value: T)
}
