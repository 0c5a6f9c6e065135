/** Java's nullable references, for the places where the source uses `null` as "no value". */
module Options {

  datatype Option<+T> = None | Some(value: T)
}
