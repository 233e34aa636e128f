/** Small shared vocabulary: optional values, the JavaScript exception outcome, and
    connection handles. */
module Common {

  /** A member of a JavaScript options bag that may be missing (undefined). */
  datatype Option<+T> = None | Some(value: T)

  /** The outcome of an operation that either completes or throws a TypeError
      (a property read or a call on `undefined`). */
  datatype Result<+T> = Ok(value: T) | TypeError

  /** An encrypted transport connection (a SecretStream in the source). The model only
      needs to tell handles apart, so a handle is its number. */
  datatype Conn = Conn(handle: nat)
}
