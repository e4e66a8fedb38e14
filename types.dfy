/** Option and Result, the two wrappers the rest of the model uses for
    Python's `None` and for raised exceptions. */
module Types {

  datatype Option<+T> = None | Some(value: T)

  datatype Result<+T, +E> = Ok(value: T) | Err(error: E)

  /** Python's truthiness of an optional string: present and not empty. */
  predicate Filled(v: Option<string>)
  {
    v.Some? && v.value != ""
  }
}
