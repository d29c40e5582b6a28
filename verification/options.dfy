/** The optional value shared by every model in this project: C's NULL
    pointers, "no match" and "not written" all become None. */
module Options {
  datatype Option<T> = None | Some(value: T)
}
