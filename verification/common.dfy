/** Values the JavaScript source may leave `null` or `undefined`. */
module Common {

  datatype Option<+T> = None | Some(value: T)

  /** A JavaScript string value is truthy when it is present and non-empty. */
  predicate Truthy(v: Option<string>) {
    v.Some? && v.value != ""
  }
}
