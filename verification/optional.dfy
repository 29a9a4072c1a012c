/** Values that may be absent: no file chosen yet, no matching table row, a
    multipart body that does not decode. */
module Optional {

  datatype Option<T> = None | Some(value: T)

  /** The held value, or `fallback` when there is none. */
  function ValueOr<T>(o: Option<T>, fallback: T): T {
    if o.Some? then o.value else fallback
  }
}
