/** Optional values, for the places where the program returns `None`
    or a lookup may come up empty. */
module Optional {
  datatype Option<+T> = None | Some(value: T)
}
