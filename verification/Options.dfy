/** Values that may be absent: null pointers, lookups that find nothing, configuration that is not given. */
module Options {
  datatype Option<T> = None | Some(value: T)
}
