/** Small shared vocabulary: optional values, results and bytes. */
module Base {

  datatype Option<+T> = None | Some(value: T)

  datatype Result<+T, +E> = Success(value: T) | Failure(error: E)

  /** A byte as Python's `bytes` holds it. */
  type byte = b: int | 0 <= b < 256
}
