/** Optional values: the model's stand-in for Java's nullable references. */
module Options {
  datatype Option<+T> = None | Some(value: T)
}
