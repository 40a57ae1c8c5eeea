/** Small failure-carrying datatypes shared by the store model. */
module Results {

  /** A possibly missing value: `None` stands for JavaScript's `null` / `undefined`. */
  datatype Option<+T> = None | Some(value: T)

  /** The outcome of a call that may throw: `Err` carries the thrown value. */
  datatype Result<+T, +E> = Ok(value: T) | Err(error: E)
}
