/** Optional values. `None` stands for JavaScript's `null` and for a property
    that is absent from an object. */
module Options {

  datatype Option<+T> = None | Some(value: T)
}
