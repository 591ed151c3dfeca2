/** Optional values: a key absent from browser storage, a riddle missing from the configuration. */
module Options {

  datatype Option<+T> = None | Some(value: T)
}
