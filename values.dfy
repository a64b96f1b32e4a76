/** Small value wrappers shared by every module of the model. */
module Values {

  /** An optional value; `None` stands for Python's `None` or a missing key. */
  datatype Option<+T> = None | Some(value: T)

  /** The outcome of an operation that raises an exception in Python. */
  datatype Result<+T, +E> = Ok(value: T) | Err(error: E)

  /** Python truthiness of an optional string: `None` and `''` are false. */
  predicate Truthy(s: Option<string>)
  {
    s.Some? && s.value != ""
  }
}
