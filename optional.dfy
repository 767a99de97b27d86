/** Go's `error` results and "comma ok" lookups, as an optional value. */
module Optional {
  datatype Option<T> = None | Some(value: T)
}
