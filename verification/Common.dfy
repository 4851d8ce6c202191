/** Small datatypes shared by every module. */
module Common {
  /** An optional value, for the nullable columns and lookups of the backend. */
  datatype Option<+T> = None | Some(value: T)

  /** A returned value or the error the backend would have raised. */
  datatype Result<+T, +E> = Ok(value: T) | Err(error: E)

  /** Primary keys are UUIDs in the database; only their equality matters. */
  type Id = nat
}
