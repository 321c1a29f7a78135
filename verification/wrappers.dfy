/** Failure-compatible result types shared by the whole model. */
module Wrappers {

  /** An optional value; `None` stands for JavaScript's "nothing here". */
  datatype Option<+T> = None | Some(value: T)

  /** The settled state of a promise-returning collaborator: resolved with a
      value, or rejected with an error. */
  datatype Result<+R, +E> = Success(value: R) | Failure(error: E)
}
