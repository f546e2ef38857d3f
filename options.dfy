/** An optional value: `null`-or-value in the source, and the result of a
    parser that may reject its input. */
module Options {
  datatype Option<+T> = None | Some(value: T)
}
