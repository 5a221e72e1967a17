/** The optional value used where the source returns `undefined` or a parse can fail. */
module Options {

  datatype Option<T> = None | Some(value: T)

}
