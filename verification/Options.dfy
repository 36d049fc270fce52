module Options {

  /** A value or its absence (NULL, an end of data, an error already reported). */
  datatype Option<+T> = None | Some(value: T)
}
