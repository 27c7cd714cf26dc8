/** A value or nothing: the kernel's NULL results. */
module Options {

  datatype Option<T> = None | Some(value: T)
}
