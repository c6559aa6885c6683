/** Optional values and results that may carry a thrown error. */
module Wrappers {

  /** An optional value; `None` stands for JavaScript's `undefined` result of a lookup or match. */
  datatype Option<+T> = None | Some(value: T)

  /** The outcome of a computation that may throw a JavaScript exception. */
  datatype Result<+T> = Ok(value: T) | Thrown(error: string)
}
