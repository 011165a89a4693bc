/** What the columns share: values that may be NULL, and JSON documents. */
module Options {
  datatype Option<+T> = None | Some(value: T)

  /** The text of a JSON document. */
  type Json = string
}
