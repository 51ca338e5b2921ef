/** Small failure-carrying datatypes shared by the modules of this project. */
module Wrappers {

  /** An optional value: `undefined` in the schema front end's TypeScript. */
  datatype Option<+T> = None | Some(value: T)

  /** The value of a step that may throw: either what it returned or the error it threw. */
  datatype Result<+T, +E> = Ok(value: T) | Err(error: E)
}
